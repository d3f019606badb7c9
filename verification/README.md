# A verified model of secmem

secmem keeps secrets in locked, guarded memory outside the Go heap. This project models the
parts of it whose correctness is an argument rather than a glance, and proves that argument in
Dafny 4.11.

- **The concurrency kernel.** The reader-writer lock with its reader count and writer bias in one
  atomic word, the slot arena with its generation counters and first-in-first-out free list, the
  two-set crash registry, the destroy quarantine, closed-at-rest pages, the Argon2 pool and the order
  in which locks nest are state machines. A step is one atomic access or one critical section. A schedule is any
  sequence of steps of any number of threads, a choice that is not enabled does nothing, and the
  theorems are about every state that every schedule reaches. Beside what no schedule can break, each
  call has a theorem that gives its whole effect, from every such state, when nobody else moves.
- **The buffer under faults.** Seal, Unseal, ReadOnly, ReadWrite, CopyIn, CopyOut, WithBytes,
  Truncate, Destroy and the emergency wipe are methods of a class. Every system call, cipher call, tag and re-lock inside them
  may fail, as the caller of the method chooses. A failing call leaves its own state unchanged.
- **Arithmetic and in-place derivation.** Multi-limb reduction equals `x mod m`. HMAC, HKDF, PBKDF2
  and scrypt, computed inside one shared region whose slices may overlap, equal their standards for
  any hash function, and leave the region wiped.
- **The OpenSSH key file.** The writer fills buffers of exactly the size it computed, and the reader
  opens every such file as the key it was made from, with and without a passphrase. The PKCS#1
  structure the reader assembles for RSA decodes to the nine integers it stands for.

`dafny verify dfyconfig.toml` checks the whole project.

## How the model is laid out

| file | what it is |
|---|---|
| `BufferLock.dfy` | the lock's steps, its invariant and theorems, and the lock as an object |
| `Arena.dfy`, `SlotIndex.dfy` | acquire, borrow, release and destroy interleaved over the linked free list; the list in place |
| `Registry.dfy`, `Janitor.dfy` | the registry protocol; the janitor's two maps in place |
| `SecureBuffer.dfy`, `ClosedAtRest.dfy` | one buffer under faults; closed-at-rest pages under concurrency |
| `LockOrder.dfy`, `Pool.dfy` | who waits for whom; the Argon2 pool |
| `Quarantine.dfy`, `Canary.dfy` | the quarantine; guard zones |
| `ModReduce.dfy` | reduction over 64-bit limbs |
| `Memory.dfy`, `Hmac.dfy`, `Pbkdf2.dfy`, `PadsMatter.dfy`, `Scrypt.dfy`, `ScryptParams.dfy` | derivation in one region, and the bounds on scrypt |
| `SshWire.dfy`, `Base64.dfy`, `Pem.dfy`, `Ctr.dfy`, `OpenSsh.dfy`, `KeyFile.dfy` | the key file, written and opened |
| `Der.dfy`, `Pkcs1.dfy` | the RSA structure |
| `AllowIndex.dfy` | the sanitizer's allowlist index |
| `Counting.dfy`, `Numbers.dfy`, `Options.dfy`, `Pages.dfy` | sums over threads, positional notation, optional values, page access |

## What the proofs turned up

- The comment on the free list says that a slot is on it exactly when its generation is even
  (securearena.go:243-244). Between Release's compare-and-swap and its append that is not so:
  `Arena.EvenButNotFree` gives a schedule to such a state for every arena. `Arena.FreeListExact`
  states the exact rule, with the release in flight.
- `pbkdf2Run` lays the password over its pads without clearing them. The comment on `pbkdf2Compute`
  asks only for a region of sufficient size (secmem-crypto/pbkdf2_inplace.go:29-33). The derivation
  meets RFC 8018 when the pads are zero behind the key, which a fresh buffer's are, and for a single
  iteration whatever they hold (`Pbkdf2.Compute`). Nothing less will do: from two iterations on, any
  stray byte gives some hash another key, whatever the password (`PadsMatter.ExactlyWhen`). scrypt
  makes one iteration in each of its two calls, so it needs no zeroed region (`Scrypt.Compute`).
- `Argon2Workspace.Derive` says that it cannot deadlock against another ordered borrow, and that a
  borrow around it must come first in lock order (secmem-crypto/argon2_workspace.go:79-84). It also
  waits for the workspace's mutex, which has no place in that order, and holds it while it waits for
  its two buffers. A thread that holds K around a Derive waits for the mutex; a thread inside a Derive
  into K waits for K behind a queued writer; the writer waits for the first thread. Each call keeps
  the rule. `LockOrder.ExactlyWhen` gives the exact condition: what is held around a use of a
  workspace must also come before the buffers that every other use of it takes. The same holds for
  the workspaces of a pool, and `LockOrder.ClashWedges` gives the schedule for every other pair of
  calls.
- A failed Seal leaves the buffer unsealed with its plaintext, except when the rollback's decryption
  fails as well; then it stays sealed over intact ciphertext (`SecureBuffer.Buffer.Seal`).

## Model

| member | source | states |
|---|---|---|
| `BufferLock.StepInv` | buflock.go:142-245 | every atomic step keeps the lock's invariant: who holds the mutex, and what the word, the waiting count and the active flag add up to |
| `BufferLock.ReachableInv` | buflock.go:142-245 | the invariant holds in every state of every interleaving of fewer than 2^30 threads |
| `BufferLock.WordExact` | buflock.go:142-206 | the word equals the enrolled readers plus the readers about to undo themselves, less the bias while it is installed; it never wraps, and its sign is the bias |
| `BufferLock.Exclusion` | buflock.go:191-206 | a writer shares the lock with no reader and no other writer |
| `BufferLock.NoReaderOvertakes` | buflock.go:142-172 | with the bias installed, no step lets a further reader in |
| `BufferLock.BiasLifted` | buflock.go:235-245 | only unlock lifts the bias, and only with no writer queued and none active |
| `BufferLock.WriterPreference` | buflock.go:142-245 | over whole runs: while the bias stays, the readers inside are among those inside when it was installed |
| `BufferLock.NoLostWakeup` | buflock.go:151-206 | if a parked thread's wait predicate is false, some thread is already committed to a broadcast |
| `BufferLock.CommitmentKept` | buflock.go:151-206 | a committed thread stays committed until its own step has woken every parked thread |
| `BufferLock.NoDeadlock` | buflock.go:142-245 | with a thread parked, somebody is inside the lock or somebody inside an operation can step |
| `BufferLock.FreeExactly` | buflock.go:142-206 | with the mutex free, the fields say the lock is free exactly when no thread is counted as a reader, queued as a writer or writing |
| `BufferLock.TryLockExactly` | buflock.go:215-230 | on a free lock tryLock leaves the thread writing with the bias in the word; on any other it returns with every field as it was |
| `BufferLock.LockTakes` | buflock.go:191-206 | lock on a free lock leaves the thread writing, without parking |
| `BufferLock.UnlockFrees` | buflock.go:235-245 | unlock clears the active flag and wakes every sleeper, and lifts the bias exactly when no writer waits |
| `BufferLock.RLockFast` | buflock.go:142-149 | in every reachable state rLock adds one to the word, without wrapping, and is in at once exactly when no bias is there |
| `BufferLock.RUnlockFast` | buflock.go:176-189 | rUnlock takes one off the word, and goes on to wake the writer exactly when it was the last reader under the bias |
| `BufferLock.BufferRWLock.constructor` | buflock.go:134-138 | a new lock is the initial state of the protocol |
| `BufferLock.BufferRWLock.WakeAll` | buflock.go:176-206 | a broadcast turns every parked thread into a woken one and touches nothing else |
| `BufferLock.BufferRWLock.Step` | buflock.go:142-245 | one step of the object is one step of the protocol, so every theorem above is about the object |
| `Arena.StepInv` | securearena.go:542-946 | every step of acquire, borrow, release, destroy, protection change and wipe keeps the arena's invariant |
| `Arena.ReachableInv` | securearena.go:238-253 | the invariant holds in every reachable state, with any number of releases of one handle |
| `Arena.FreeListExact` | securearena.go:595-627 | the free list holds, once each, exactly the even-generation slots with no release between claim and append; there is at most one such release per slot; live is count less the list's length |
| `Arena.ChainVisitsFree` | securearena.go:238-270 | in every reachable state the links from freeHead visit the free slots, oldest first and each once, end at freeTail and stop: no cycle under any interleaving |
| `Arena.EvenButNotFree` | securearena.go:243-244 | for every arena, a reachable state with an even generation off the free list |
| `Arena.ClaimedAtMostOnce` | securearena.go:882-940 | each issued slot and generation is claimed at most once, and a claimed handle's slot has moved past it |
| `Arena.BorrowOnlyUnclaimed` | securearena.go:756-815 | a callback starts only on a handle no release has claimed, on a mapped and unwiped slab that stays so while it runs; `Arena.BorrowExactly` and `Arena.BorrowRuns` give the other direction |
| `Arena.BorrowExactly` | securearena.go:776-815 | at its test under the lock a borrow starts its callback if and only if the slab is mapped and not wiped and no release has claimed the handle |
| `Arena.BorrowRuns` | securearena.go:756-815 | from every reachable state with nobody exclusive: a borrow of an unclaimed handle on a live arena is in its callback after its three steps; any other has changed nothing |
| `Arena.StoreLands` | securearena.go:810-815 | what the callback stores becomes the window of its slot and no other window changes; on a read-only slab no store happens |
| `Arena.AcquireTakes` | securearena.go:595-627 | Acquire hands out the oldest free slot under its next generation, odd and never issued before; a destroyed, wiped or full arena hands out nothing |
| `Arena.ReleaseReturns` | securearena.go:841-946 | Release of a current handle claims it, zeroes its window and no other, and puts its slot last; it changes nothing exactly when the handle was claimed before or the slab is read-only and not wiped |
| `Arena.DestroyUnmaps` | securearena.go:542-577 | Destroy flags and unmaps the arena, every window zeroed unless the call for that fails; a second one changes nothing more |
| `Arena.ProtectSets` | securearena.go:676-727 | ReadOnly and ReadWrite set the protection they name exactly when the slab is mapped and not wiped and their call goes through |
| `Arena.WipeClears` | registry.go:334-431 | the emergency wipe of a mapped slab zeroes every window and sets the flag, or changes nothing when write access is refused |
| `Arena.FifoReuse` | securearena.go:841-946 | over every run of every arena: all slots in order followed by what was released is what freeHead handed out followed by what is free at the end |
| `Arena.AcquiredSlotIsZero` | securearena.go:882-940 | under the single-owner rule the slot at freeHead is all zeros in every run, and after the emergency wipe every slot is |
| `Arena.StepZero` | securearena.go:756-946 | each step keeps free slots and slots about to be appended zero |
| `SlotIndex.WalkVisitsFree` | securearena.go:238-270 | on any well-linked chain, following the links from the head visits the queue in order, ends at the tail and then stops |
| `SlotIndex.PopLinked` | securearena.go:610-620 | taking the head leaves the chain well linked over the rest of the queue |
| `SlotIndex.AppendLinked` | securearena.go:931-940 | putting back a slot that is not on the list leaves the chain well linked over the longer queue |
| `SlotIndex.DoubleAppendCycles` | securearena.go:882-891 | appending a slot twice would link it to itself for ever, which is why the claim comes first |
| `SlotIndex.SlotTable.constructor` | securearena.go:455-461 | the seeding links every slot in ascending order, so that slots go out as 0, 1, 2, ... |
| `SlotIndex.SlotTable.Acquire` | securearena.go:595-627 | the pop in place removes the queue's head, makes its generation odd, and gives the source's errors in the source's order |
| `SlotIndex.SlotTable.Append` | securearena.go:931-940 | the append in place puts the slot at the queue's end and keeps the chain well linked |
| `Registry.StepInv` | registry.go:128-628 | every critical section and every wipe, release or store under a region lock keeps the registry's invariant |
| `Registry.ReachableInv` | registry.go:128-628 | the invariant holds in every interleaving of registrations, Destroys, cleanups, accessors and wipe passes |
| `Registry.OneHome` | registry.go:152-296 | a mapped registered region is in exactly one set or with one releaser that holds its lock alone, its owner has its reference, and it has been released no time before it is gone and once after |
| `Registry.NeverStranded` | registry.go:450-469 | after every run a call of Destroy or a cleanup that has returned leaves its mapping released, once, and in neither set |
| `Registry.StoreIsSafe` | securebuf.go:256-275 | no accessor or mutator stores into an unmapped or flagged region, and a flagged region is zero |
| `Registry.WipeAllResult` | registry.go:585-628 | after wipeAllInPlace each key of its snapshot is gone, or flagged, zero and out of the live set, or reported skipped, and then when its lock was let go it was live as registered, or already wiped and zero |
| `Registry.SkippedOnlyIfRefused` | registry.go:340-354 | in every run: a pass reports its region as skipped only if one of its own steps, taken at its wiping point, was refused |
| `Registry.WipeJobWipes` | registry.go:489-552 | from every reachable state with the region in a set and its lock free: a wipe job whose calls go through ends with the region flagged, zero, mapped and in the wiped set under its own lock, its layout dropped |
| `Registry.WaitingJobWipes` | registry.go:489-521 | the same of a pass that blocks for the lock; a pass that finds the region in neither set is done and changes nothing |
| `Registry.WipeAllWipes` | registry.go:585-628 | a call of wipeAllInPlace takes up every registered region, and with the locks free and no call refused it wipes every one |
| `Registry.DestroyReleases` | registry.go:450-469 | Destroy with the lock free and its calls going through wipes the region, releases it once and drops the owner's reference; on a destroyed one it changes nothing |
| `Registry.CleanupReleases` | registry.go:450-469 | the cleanup of a region still in a set wipes it and releases it once |
| `Registry.AccessRuns` | securebuf.go:256-275 | an accessor with the lock free is refused exactly when the owner has no reference or the region is flagged, and otherwise runs and its store lands |
| `Registry.RegisterFiles` | registry.go:128-149 | a registration is live, as it was made, under a key nobody had, over a mapping of its own, and no other key changes |
| `Registry.SkipLeavesInPlace` | registry.go:489-552 | the report of a skipped region gives its two entries as they are before its lock is released: a live one with its original canary layout and unflagged, or a wiped one that is zero |
| `Registry.WipedForGood` | registry.go:422-426 | over any continuation the wiped flag, the zeros, the absence of a removed key and an unmapping are permanent |
| `Registry.MoveInv` | registry.go:334-552 | one move of any actor at any control point keeps the invariant |
| `Registry.WipeAllInv` | registry.go:585-628 | taking the snapshot and starting its passes keeps the invariant |
| `Registry.CleanupInv` | registry.go:450-469 | the cleanup starting on an unreachable owner keeps the invariant |
| `Registry.RegisterInv` | registry.go:128-149 | registering under a fresh key keeps the invariant |
| `Janitor.Sets.Register` | registry.go:128-149 | the minted key is in neither set, so the collision branch is dead and the entry is filed live |
| `Janitor.Sets.Take` | registry.go:152-160 | takeAny's first critical section is the protocol's move, and no other key changes |
| `Janitor.Sets.TakeWiped` | registry.go:288-296 | takeAny's second critical section is the protocol's move |
| `Janitor.Sets.PeekAny` | registry.go:175-183 | the live entry if there is one, else the wiped one |
| `Janitor.Sets.TakeAnyIf` | registry.go:204-222 | only the registration whose lock the caller holds is taken, from whichever set it is in |
| `Janitor.Sets.MoveToWipedIf` | registry.go:248-269 | the transfer is one critical section, drops the canary layout from the filed entry and returns the original |
| `Janitor.Sets.ReturnToLive` | registry.go:278-285 | the undo files the original entry live again, and only for the same registration |
| `Janitor.MoveAndReturn` | registry.go:248-285 | a live registration moved and returned leaves both maps exactly as they were |
| `SecureBuffer.Buffer.constructor` | securebuf.go:288-355 | a buffer starts unsealed, writable and holding its contents |
| `SecureBuffer.Buffer.Authenticate` | sealauth.go:247-263 | a tag taken is the tag of the bytes at rest under the current key generation |
| `SecureBuffer.Buffer.Verify` | sealauth.go:267-285 | on a sealed tagged buffer with its own key generation, an integrity error exactly when the bytes are not those Seal left; another generation is ErrWiped first |
| `SecureBuffer.Buffer.SetReadOnly` | securebuf.go:519-578 | the flag changes exactly when the protection call succeeds, and the refusals come in the source's order |
| `SecureBuffer.Buffer.Seal` | securebuf.go:627-711 | the verdict for every combination of refused calls; success leaves the page closed over ciphertext with its tag; failure leaves the plaintext in place, or intact ciphertext when the rollback fails too, and puts the protection at rest back unless that call is refused as well; the secret is never lost |
| `SecureBuffer.Buffer.RollbackSeal` | securebuf.go:700-712 | the rollback ends unsealed on plaintext, or sealed with the cipher flag set exactly when its decryption failed |
| `SecureBuffer.Buffer.Unseal` | securebuf.go:749-829 | the verdict for every combination of refused calls, key and alteration, in the order of the source; altered tagged bytes are never unsealed and ErrIntegrity means they were altered; a buffer that opens is no-access if closed at rest, read-only if it was, else read-write; one whose rest protection is refused stays sealed and is closed again |
| `SecureBuffer.Buffer.Open` | closedatrest.go:65-89 | after a successful open the page is locked and allows what the flags allow |
| `SecureBuffer.Buffer.Close` | closedatrest.go:95-109 | a failed close is reported and breaks no invariant |
| `SecureBuffer.Buffer.CopyIn` | securebuf_access.go:208-231 | the guards in order, then exactly the bytes that fit, over the old value |
| `SecureBuffer.Buffer.CopyOut` | securebuf_access.go:176-199 | the bytes of the last value written from the offset on, as many as fit, or the source's refusal |
| `SecureBuffer.Buffer.WithBytes` | securebuf_access.go:67-91 | the callback sees exactly the last value written, what it stores is the new value, and a store to a read-only buffer faults |
| `SecureBuffer.Buffer.Truncate` | securebuf.go:853-898 | the cut-off bytes become zero, and the length changes only when every call succeeded |
| `SecureBuffer.Buffer.EmergencyWipe` | registry.go:334-408 | a wipe that runs leaves zeros, the flag set and no cipher state; one that cannot changes nothing |
| `SecureBuffer.Buffer.Destroy` | securebuf.go:394-458 | the integrity verdict is given only for altered tagged bytes, and always when the check can run; the contents are zero unless the page could not be made writable |
| `SecureBuffer.Apply` | securebuf.go:394-898 | any one operation with any faults keeps the buffer in step with its owner's value and answers rightly; without faults, the answer and the state are those of the plain machine |
| `SecureBuffer.Run` | securebuf.go:394-898 | for every sequence of operations with every pattern of faults, every read returns the stores answered before it in order, an integrity error means a byte changed since the buffer was last sealed, nothing is read after a wipe or Destroy, and the value in the end is the replay, unless a byte changed where no tag was taken; as long as nothing fails, every answer is the plain machine's |
| `ClosedAtRest.PageFollowsUse` | closedatrest.go:47-131 | for any threads, schedule and refused calls: every use finds the page readable, and writable when not read-only; with no use open the page is no-access unless the last closing call was refused |
| `ClosedAtRest.StepPage` | closedatrest.go:65-131 | each step keeps openers equal to the uses in progress and the page in step with them |
| `ClosedAtRest.ShutUnlessRefused` | closedatrest.go:65-112 | in a run in which no closing call is refused, the page is no-access whenever no use is open |
| `ClosedAtRest.UseExactly` | closedatrest.go:65-131 | a use that has the lock gets the page, as its mode asks, unless it mutates a read-only buffer or it is the first and one of its calls is refused; then nobody more is counted |
| `ClosedAtRest.CloseExactly` | closedatrest.go:95-112 | the last use shuts the page unless that call is refused; an earlier one leaves it as it is |
| `ClosedAtRest.ModeExactly` | securebuf.go:519-575 | ReadOnly and ReadWrite, alone with the buffer, record the mode and change nothing else |
| `LockOrder.BorrowOrder` | secmem-crypto/openssh_wire.go:209-222 | the two buffers are borrowed in ascending key whatever the argument order |
| `LockOrder.NoDeadlock` | secmem-crypto/argon2_workspace.go:79-127 | with every nested borrow ascending, buffers made and destroyed inside borrows, the keyring and the prekeys taken under a buffer, wipe passes on any region, and uses of workspaces and pools that are compatible with each other: whenever a thread is inside a call, some thread inside a call can step |
| `LockOrder.WantsAboveHeld` | secret.go:104-116 | a thread that waits wants a lock above every lock it holds: buffers by key with each gate at its place among them, then the keyring, then the prekeys |
| `LockOrder.LegalScript` | secmem-crypto/openssh_wire.go:231-249 | every call of the source takes each lock above what it holds then, the Destroy of a buffer made inside borrows included |
| `LockOrder.ScriptUses` | secmem-crypto/argon2_workspace.go:85-127 | each call takes exactly its locks, shared or alone as the source takes them: a Seal its region, the keyring and each prekey it uses or renews; a scratch buffer both to borrow and to destroy it; a Derive its gate and both its buffers; a Close its gate and every workspace |
| `LockOrder.CallReaches` | secmem-crypto/argon2_workspace.go:85-113 | left to run, every call reaches the point where it holds just the locks it works under, nested in order |
| `LockOrder.ExactlyWhen` | secmem-crypto/argon2_workspace.go:79-113 | for any set of uses of workspaces that each keep the ascending rule: no schedule gets stuck if and only if whatever one of them holds around its gate comes before the buffers every other behind that gate takes |
| `LockOrder.ClashWedges` | secmem-crypto/argon2_workspace.go:95-113 | any two uses that break this get stuck, with one ordered borrow and one or two writers beside them, whatever the number of workspaces |
| `LockOrder.OppositeOrdersWedge` | secret.go:92-99 | for any two buffers, borrows in opposite orders with a writer queued on each reach a state nobody can leave |
| `Pool.StepInv` | secmem-crypto/argon2_workspace.go:169-212 | each step of Derive and Destroy keeps the pool's invariant |
| `Pool.OnePlace` | secmem-crypto/argon2_workspace.go:169-203 | in every interleaving, until Destroy closes the channel each workspace is in it once or with one call and not destroyed; afterwards no derivation has one |
| `Pool.SendsAreSafe` | secmem-crypto/argon2_workspace.go:176-203 | nothing is sent on the closed channel, it is closed once, and returning a workspace never waits |
| `Pool.DestroyedOnce` | secmem-crypto/argon2_workspace.go:187-212 | each workspace is destroyed at most once and never under a derivation, and all of them once when Destroy returns |
| `Pool.LateDerive` | secmem-crypto/argon2_workspace.go:169-179 | a Derive that waits when the channel is closed, or comes later, ends with ErrDestroyed |
| `Pool.EveryCallEnds` | secmem-crypto/argon2_workspace.go:169-212 | from every reachable state, letting the calls under way go on ends every one of them |
| `Pool.DeriveDerives` | secmem-crypto/argon2_workspace.go:169-183 | a Derive on an open pool with a workspace free gets the one that has been free longest, ends derived and puts it last |
| `Pool.RefusedWhenDone` | secmem-crypto/argon2_workspace.go:169-197 | on a pool that is done, Derive and a second Destroy return at once and change nothing |
| `Quarantine.Fifo.constructor` | quarantine.go:60-84 | an empty quarantine within its limits |
| `Quarantine.Fifo.Trim` | quarantine.go:139-155 | the loop evicts exactly the excess, oldest first, and leaves the byte count equal to the held lengths |
| `Quarantine.Fifo.Queue` | quarantine.go:129-134 | evicted followed by held is the old list with the new range behind it, within the limits |
| `Quarantine.Fifo.SetLimits` | quarantine.go:60-71 | new limits hold at once, and the previous ones are returned |
| `Quarantine.Fifo.Admits` | quarantine.go:108-113 | a range is wanted exactly when the queue could hold it alone within its limits |
| `Quarantine.ExcessExact` | quarantine.go:139-155 | what is evicted brings the rest within the limits, and one fewer would not |
| `Quarantine.StepInv` | quarantine.go:60-166 | each step of a retirement or limit change conserves every range |
| `Quarantine.EveryRun` | quarantine.go:60-166 | in every interleaving both limits hold, what left is the oldest, and every retirement of every range is held, in one thread's hand, unmapped once or left in place |
| `Quarantine.AtRest` | quarantine.go:101-166 | once every thread is done, every retirement of a range is held, unmapped or left in place, exactly one of them |
| `Quarantine.RetireGoes` | quarantine.go:101-135 | a retirement from beginning to end: wanted and replaced, the range is queued last and the excess unmapped, oldest first; not wanted, or replaced with the old range intact, it is unmapped; when what is there now is unknown it is left |
| `Quarantine.LimitsApply` | quarantine.go:60-71 | new limits, taken as zero regions when negative, unmap at once the oldest ranges they no longer admit |
| `Quarantine.AloneRuns` | quarantine.go:60-166 | those steps of one thread are a run of the protocol |
| `Canary.LayoutsRegular` | canary.go:92-106 | both constructors give layouts whose zones lie inside the mapping, so the bounds check of arm and intact never skips one |
| `Canary.Partition` | canary.go:100-123 | every byte of the slab is in exactly one slot's window or is a guard, never both |
| `Canary.BufferGuards` | canary.go:92-98 | in a buffer's mapping the guards are exactly the bytes behind the usable ones, in order |
| `Canary.WindowsApart` | securearena.go:812-815 | a slot's window shares no byte with another window or with a guard zone |
| `Canary.Fill` | canary.go:50-58 | the pattern repeats from the start of the zone and nothing else changes |
| `Canary.Arm` | canary.go:131-144 | exactly the guards are overwritten, each with its byte of the pattern |
| `Canary.ZoneIntact` | canary.go:182-194 | the accumulated difference is zero exactly when the whole zone holds the pattern |
| `Canary.Intact` | canary.go:150-163 | true exactly when every guard byte is as armed |
| `Canary.OwnerKeepsIntact` | securearena.go:812-815 | whatever an owner writes inside its window keeps the guards intact |
| `Canary.ChangeIsNoticed` | canary.go:150-163 | any changed guard byte is noticed |
| `ModReduce.SetLimbs` | secmem-crypto/modreduce.go:84-96 | the limbs stand for the big-endian number, or nothing changed when it does not fit |
| `ModReduce.LimbsToBE` | secmem-crypto/modreduce.go:99-104 | the bytes stand for the limbs' value, big-endian with leading zeros |
| `ModReduce.ShiftIn` | secmem-crypto/modreduce.go:62-66 | doubling and adding a bit, with the carry out accounted for |
| `ModReduce.Subtract` | secmem-crypto/modreduce.go:67-71 | limb-wise subtraction is integer subtraction modulo the width, with the borrow accounted for |
| `ModReduce.ReduceBit` | secmem-crypto/modreduce.go:62-75 | one bit in: the accumulator is the prefix of x modulo m, the doubling never carries out, and the select keeps it below m |
| `ModReduce.ReduceBytes` | secmem-crypto/modreduce.go:60-77 | all bytes in: the accumulator is x mod m |
| `ModReduce.ReduceMod` | secmem-crypto/modreduce.go:35-80 | true exactly for admissible lengths and non-zero m, then dst is x mod m in m's width; false leaves dst untouched |
| `ModReduce.Decrement` | secmem-crypto/modreduce.go:108-119 | true exactly when the lengths agree and p is at least 1, then dst is p - 1; for p = 0 dst is all ones |
| `Hmac.TableIsLawful` | secmem-crypto/hmac_inplace.go:65-99 | every hash of the table has sizes the in-place code can work with |
| `Hmac.Gather` | secmem-crypto/hmac_inplace.go:283-287 | the parts are copied behind the pad in order before anything else is written |
| `Hmac.LayPad` | secmem-crypto/hmac_inplace.go:288-302 | clear, copy and mask give the padded key under the mask |
| `Memory.XorBit` | secmem-crypto/hmac_inplace.go:288-302 | a bit of the exclusive or of two bytes is set exactly when it is set in one of them |
| `Hmac.MacIs` | secmem-crypto/hmac_inplace.go:269-307 | HMAC byte by byte: the hash of the key masked with 0x5c and the hash of the key masked with 0x36 and the text, the key hashed when it is longer than a block and zeros behind it |
| `Hmac.InPlace` | secmem-crypto/hmac_inplace.go:269-307 | dst is HMAC of section 2 of RFC 2104 even when it overlaps the key or a part; the scratch used is zero, every other byte is unchanged; too small a scratch is refused before any write |
| `Hmac.EmptySalt` | secmem-crypto/hmac_inplace.go:366-369 | an empty key and a digest's length of zeros give the same HMAC |
| `Hmac.ExtractIs` | secmem-crypto/hmac_inplace.go:366-369 | the extracted key is those two hashes over the padded salt, zeros when it is empty |
| `Hmac.ExpandBlock` | secmem-crypto/hmac_inplace.go:373-377 | one block is T(i) of section 2.3 of RFC 5869, computed over the previous block it replaces |
| `Hmac.Hkdf` | secmem-crypto/hmac_inplace.go:360-380 | dst is the output of RFC 5869 sections 2.2 and 2.3, the region ends zero, and nothing else changes |
| `Pbkdf2.LayKeys` | secmem-crypto/pbkdf2_inplace.go:64-74 | a long password is hashed; the pads are the key over whatever they held, masked |
| `Pbkdf2.Iterate` | secmem-crypto/pbkdf2_inplace.go:80-87 | one iteration by way of the two message buffers replaces U, folds it into T and leaves the pads alone |
| `Pbkdf2.DeriveBlock` | secmem-crypto/pbkdf2_inplace.go:76-88 | one output block is the fold of the whole chain of U |
| `Pbkdf2.RunInto` | secmem-crypto/pbkdf2_inplace.go:55-90 | for any region contents, the exact output as a function of what the pads held |
| `Pbkdf2.OutputIsDerived` | secmem-crypto/pbkdf2_inplace.go:55-90 | with clean pads, or one iteration, that output is section 5.2 of RFC 8018 |
| `Pbkdf2.Int4IsBigEndian` | secmem-crypto/pbkdf2_inplace.go:77 | the counter is four bytes, most significant first, and below 2^32 their value is the block number |
| `Pbkdf2.SingleIteration` | secmem-crypto/pbkdf2_inplace.go:75-90 | with one iteration every whole block of the key is the two masked hashes of the salt followed by the block number, big-endian, from one up |
| `PadsMatter.StrayShows` | secmem-crypto/pbkdf2_inplace.go:68-74 | with any stray byte behind the key under either pad, and any count above one, a hash for which the output is not the standard's |
| `PadsMatter.ExactlyWhen` | secmem-crypto/pbkdf2_inplace.go:55-90 | the output is the standard's for every hash if and only if the count is one, the pads are zero behind the key, or no bytes are asked for |
| `Pbkdf2.Compute` | secmem-crypto/pbkdf2_inplace.go:47-90 | section 5.2 of RFC 8018, big-endian block numbers included, for every password, salt, count and length when the pads are zero behind the key or the count is one; the region ends zero |
| `Scrypt.MaskIsRemainder` | secmem-crypto/internal/scrypt/scrypt.go:165-172 | masking with a power of two less one is the remainder |
| `Scrypt.Smix` | secmem-crypto/internal/scrypt/scrypt.go:147-178 | with V, X, Y and the chaining block side by side in the working memory, two steps a pass over alternating blocks leave in the block of B what section 5 of RFC 7914 reaches one step at a time, and nothing else changes |
| `Scrypt.Mix` | secmem-crypto/internal/scrypt/scrypt.go:203-231 | every block of B is replaced by its mix, in place and in one working memory, and nothing outside the two changes |
| `Scrypt.WorkFits` | secmem-crypto/internal/scrypt/scrypt.go:184-188 | the computed working size is exactly what V, X, Y and the chaining block take |
| `Scrypt.Compute` | secmem-crypto/scrypt_inplace.go:41-52 | dst is section 6 of RFC 7914 whatever the region held, the region ends zero and nothing else changes |
| `ScryptParams.ReadCount` | secmem-crypto/pbes2.go:435-458 | malformed exactly when negative or not minimal, over exactly past 31 bits, else the value |
| `ScryptParams.PowerTest` | secmem-crypto/pbes2.go:396-398 | n & (n-1) is zero exactly for the powers of two |
| `ScryptParams.MemoryExact` | secmem-crypto/pbes2.go:408-410 | no step of the memory check wraps in 64 bits once r is bounded |
| `ScryptParams.WorkExact` | secmem-crypto/pbes2.go:411-413 | nor any of the work check past the memory check, where N, r and p are each below 2^20 |
| `ScryptParams.Check` | secmem-crypto/pbes2.go:386-414 | accepted exactly when N is a power of two above 1, below 2^16 for r = 1, within the memory and work caps; the two kinds of refusal are exact too |
| `ScryptParams.AcceptedFits` | secmem-crypto/scrypt_inplace.go:25-28 | the region of any accepted parameters and salt is below the memory cap plus 2 KiB |
| `ScryptParams.AcceptedIsPower` | secmem-crypto/scrypt_inplace.go:34-36 | an accepted N meets what the memory-hard step demands |
| `Ctr.Increment` | secmem-crypto/openssh_cipher.go:38-43 | the carry loop adds one modulo 2^128 and touches nothing else |
| `Ctr.IncToBE` | secmem-crypto/openssh_cipher.go:38-43 | incrementing the counter's bytes is incrementing its number |
| `Ctr.Xor128` | secmem-crypto/openssh_cipher.go:29-47 | every byte is masked with the key stream of counters iv, iv + 1, ... modulo 2^128, in place or not; the scratch ends zero |
| `Ctr.ApplyAt` | secmem-crypto/openssh_cipher.go:29-47 | byte j of the result is byte j of the data with byte j mod 16 of the encrypted counter iv + j / 16, taken modulo 2^128 |
| `Ctr.ApplyTwice` | secmem-crypto/openssh_cipher.go:23-29 | the mode is its own inverse |
| `SshWire.ReadStrExact` | secmem-crypto/parse_openssh.go:33-41 | a string is read exactly when the input is its encoding followed by the rest |
| `SshWire.Reader.Uint32` | secmem-crypto/parse_openssh.go:24-31 | four bytes are consumed and encode the word, or nothing is |
| `SshWire.Reader.NextStr` | secmem-crypto/parse_openssh.go:33-41 | the cursor form agrees with the functional one, including the refused length |
| `SshWire.Writer.Bytes` | secmem-crypto/openssh_wire.go:150-152 | what fits is appended, as copy does |
| `SshWire.Writer.Uint32` | secmem-crypto/openssh_wire.go:145-148 | the four bytes of the word are appended |
| `SshWire.Writer.WriteStr` | secmem-crypto/openssh_wire.go:155-164 | the length-prefixed string is appended |
| `Base64.EncodeSplit` | secmem-crypto/openssh_wire.go:190-197 | encoding in pieces of a multiple of three bytes is encoding the whole |
| `Base64.AlphabetIs` | secmem-crypto/openssh_wire.go:190-197 | the alphabet is that of section 4 of RFC 4648, in order |
| `Base64.QuadIs` | secmem-crypto/openssh_wire.go:190-197 | the four symbols of three bytes are the base-64 digits of their 24-bit number |
| `Base64.ShortQuadIs` | secmem-crypto/openssh_wire.go:190-197 | one byte and two encode as if zeros followed, with pad signs for the digits that hold none of them |
| `Base64.QuantaEncode` | secmem-crypto/parse.go:408-440 | the decoder gives back every encoded input, padded or not |
| `Base64.QuantaExactly` | secmem-crypto/parse.go:408-440 | the decoder accepts exactly whole quanta of the alphabet with at most two pad signs, at the end |
| `Base64.QuantaBack` | secmem-crypto/parse.go:408-440 | what it gives encodes as the input again, up to the unused bits of a padded last quantum |
| `Pem.ArmourLength` | secmem-crypto/openssh_wire.go:176-180 | the size computed up front is the size of the armour |
| `Pem.LinesStripped` | secmem-crypto/openssh_wire.go:190-197 | 48 bytes to a line, the body without its line breaks is the encoding of the whole |
| `Pem.LineFeeds` | secmem-crypto/openssh_wire.go:190-197 | a byte of the body is a line feed exactly when 64 symbols of its line are in front of it or it is the last |
| `Pem.EncodeInto` | secmem-crypto/openssh_wire.go:185-204 | the buffer holds exactly the armour, and the count returned is its size |
| `Pem.ScanLoop` | secmem-crypto/parse.go:342-366 | the loop over the lines computes the scan that `Pem.ScanExact` characterises |
| `Pem.ScanExact` | secmem-crypto/parse.go:342-366 | the scan splits the text into its longest run of lines with a colon and the rest, counts them and tells whether one of their names means encryption, for every test of a name; it is truncated exactly when the rest has no line |
| `Pem.LocateArmour` | secmem-crypto/parse.go:325-385 | the locator finds the label and the body of anything the encoder wrote |
| `Pem.LocatedOnly` | secmem-crypto/parse.go:325-385 | what is located is the first begin line, the rest of that line, a body with no end line in it, and an end line with the same label |
| `Pem.HeadersRefused` | secmem-crypto/parse.go:342-385 | a block with header lines is refused, as legacy encryption exactly when one of their names says so |
| `Pem.Spelling` | secmem-crypto/parse.go:190-192 | the boundary lines are the format's own texts |
| `Pem.DecodedLines` | secmem-crypto/parse.go:408-440 | that body decodes to what was armoured |
| `OpenSsh.HeaderExact` | secmem-crypto/parse_openssh.go:72-98 | the header is accepted exactly when the input is the encoding of fields that agree about encryption, and gives those fields |
| `OpenSsh.Spelling` | secmem-crypto/openssh_wire.go:20-37 | the magic, the cipher, KDF and key names are the format's own texts |
| `OpenSsh.ScanHeader` | secmem-crypto/parse_openssh.go:72-98 | the cursor form, with one verdict at the end, agrees |
| `OpenSsh.CheckPadding` | secmem-crypto/parse_openssh.go:287-297 | a pad is accepted exactly when it is shorter than a block and counts up from one |
| `OpenSsh.PrivateRead` | secmem-crypto/parse_openssh.go:159-206 | a private block as written reads back as its seed and public key |
| `OpenSsh.PrivateReadOnly` | secmem-crypto/parse_openssh.go:159-206 | a key read is a key written: the block, the public half and the derived public key all agree |
| `KeyFile.FrontLength` | secmem-crypto/marshal_openssh.go:180-187 | the layout arithmetic adds up to the bytes written |
| `KeyFile.WritePrivate` | secmem-crypto/marshal_openssh.go:207-218 | the private block is written field by field, pad included |
| `KeyFile.WriteFront` | secmem-crypto/marshal_openssh.go:197-206 | the fields in front of it are written in order |
| `KeyFile.CryptInPlace` | secmem-crypto/marshal_openssh.go:279-324 | byte j of the private block becomes itself with byte j mod 16 of AES, under the first 32 bytes of the KDF, of the last 16 plus j / 16; every byte in front of the block stays |
| `KeyFile.Marshal` | secmem-crypto/marshal_openssh.go:150-251 | both buffers are filled exactly and hold the armoured container, whose bytes `KeyFile.FrontFields` and `KeyFile.ContainerBytes` give; rounds out of range are refused |
| `KeyFile.ContainerBytes` | secmem-crypto/marshal_openssh.go:207-226 | behind the front, byte j of the container is byte j of the private block, and under a passphrase with byte j mod 16 of the encrypted counter j / 16 places on |
| `KeyFile.FrontFields` | secmem-crypto/marshal_openssh.go:164-206 | the front is the magic, the two names, the KDF options, one key, the public blob and the length, spelled out |
| `KeyFile.CryptAt` | secmem-crypto/marshal_openssh.go:286-320 | the same of any block: a key of 32 bytes and a counter of 16 from the KDF |
| `KeyFile.PemTypeIs` | secmem-crypto/openssh_wire.go:21 | the label is the format's own text |
| `KeyFile.CryptTwice` | secmem-crypto/marshal_openssh.go:279-324 | decryption with the same passphrase, salt and rounds undoes encryption |
| `KeyFile.HeaderRead` | secmem-crypto/parse_openssh.go:72-98 | the header of every marshalled container is read back field for field |
| `KeyFile.OpenedPlain` | secmem-crypto/parse_openssh.go:112-147 | every unencrypted container opens as its key |
| `KeyFile.OpenedSealed` | secmem-crypto/parse_encrypted.go:257-361 | every container the writer encrypted opens as its key under its passphrase |
| `KeyFile.OpenedUnder` | secmem-crypto/parse_encrypted.go:257-361 | a container in any cipher the reader knows, with that cipher's authenticator and a plaintext of the format, opens as the key in it |
| `KeyFile.OpenedOnly` | secmem-crypto/parse_encrypted.go:257-361 | and nothing else opens: a key that comes out was in a plaintext of the format, under a known cipher with its authenticator, with a cleartext public key that is the same |
| `KeyFile.OpenedPlainOnly` | secmem-crypto/parse_openssh.go:112-147 | a key that comes out of an unencrypted container was in a block of the format, in a container of one key, no cipher, no options and nothing behind it, with the same cleartext public key |
| `KeyFile.PlainVerdict` | secmem-crypto/parse_openssh.go:112-147 | without a passphrase: an encrypted container is refused as that, trailing bytes as malformed, a key count other than one as unsupported, unequal check words as a mismatch |
| `KeyFile.SealedVerdict` | secmem-crypto/parse_encrypted.go:257-290 | under a passphrase: a plain container is refused as not encrypted, an unknown KDF or cipher as unsupported before the tail is judged, a wrong tail as malformed, and no other error arises |
| `KeyFile.RoundsVerdict` | secmem-crypto/parse_encrypted.go:291-361 | rounds above the limit and a foreign key type are unsupported before the KDF runs; after it whatever does not become a key is one error |
| `KeyFile.KdfOptionsExactly` | secmem-crypto/parse_encrypted.go:288-302 | the KDF options are read exactly when they are a salt of one byte to 2^20, a count that is not zero, and nothing else |
| `KeyFile.FileUnarmoured` | secmem-crypto/parse.go:211-254 | the armour of every marshalled file comes off |
| `KeyFile.UnarmouredOnly` | secmem-crypto/parse.go:211-254 | what comes out of a file that is no bare container is what its first PEM block encodes, labelled as an OpenSSH key, and the file is not one DER sequence |
| `KeyFile.RoundTrip` | secmem-crypto/marshal_openssh.go:150-251 | for every seed, comment (container below 2^32 bytes), passphrase and admissible rounds, the file opens as the same seed and public key |
| `Der.CountOctets` | secmem-crypto/parse_openssh.go:442-448 | the loop counts the octets of the number |
| `Der.OctetsExact` | secmem-crypto/parse_openssh.go:442-448 | that count is the fewest octets that hold it |
| `Der.LengthRead` | secmem-crypto/parse_openssh.go:465-475 | a length field in either form decodes to its length under strict DER |
| `Der.IntegerRead` | secmem-crypto/parse_openssh.go:477-489 | an integer with or without the sign octet decodes to its value under strict DER |
| `Der.SequenceRead` | secmem-crypto/parse_openssh.go:375-387 | the sequence decodes to the values of its fields and nothing is left over |
| `Der.LengthForm` | secmem-crypto/parse_openssh.go:465-475 | below 0x80 the length is itself; else 0x80 plus the count of octets, and in them the length, the first not zero |
| `Der.TagForm` | secmem-crypto/parse_openssh.go:477-489 | the tags are 2 and 48, the length counts just the contents behind it, and an integer's contents have its value and a clear sign bit |
| `Der.Writer.PutLength` | secmem-crypto/parse_openssh.go:465-475 | the length field is written in exactly its computed size, most significant octet first |
| `Der.Writer.PutInteger` | secmem-crypto/parse_openssh.go:477-489 | the integer is written in exactly its computed size |
| `Pkcs1.StripZeros` | secmem-crypto/parse_openssh.go:301-306 | the loop removes exactly the leading zeros |
| `Pkcs1.StripEmpty` | secmem-crypto/parse_openssh.go:301-306 | nothing is left exactly when the number is zero |
| `Pkcs1.BitLenExact` | secmem-crypto/parse_openssh.go:309-314 | the bit length is the one with 2^(len-1) <= value < 2^len |
| `Pkcs1.CrtExponent` | secmem-crypto/parse_openssh.go:355-365 | d mod (prime - 1), stripped, and nothing exactly when the prime is below 2 |
| `Pkcs1.WriteSequence` | secmem-crypto/parse_openssh.go:372-394 | a buffer of the computed size is filled exactly and decodes to the fields' values |
| `Pkcs1.Assemble` | secmem-crypto/parse_openssh.go:328-395 | assembled exactly when the integers are non-zero, the primes above 1 and all within the caps that `Pkcs1.AcceptedExactly` spells out; decodes to 0, n, e, d, p, q, d mod (p-1), d mod (q-1), iqmp |
| `Pkcs1.AcceptedExactly` | secmem-crypto/parse_openssh.go:328-365 | the caps as numbers: n and d below 2^16384, the primes and the inverse below 2^8192, the primes above one, and an odd exponent above one and below 2^24 |
| `AllowIndex.Build` | redact/sanitizer.go:287-315 | the index lists the spans in start order with the running maximum of their ends, whatever order the sort leaves equal starts in |
| `AllowIndex.Search` | redact/sanitizer.go:319-331 | binary search finds the first place not below the value |
| `AllowIndex.Exempts` | redact/sanitizer.go:319-331 | the lookups answer exactly as a scan over every span would |

## Left out

- The operating-system layer, guard pages, core-dump and swap controls: system calls; here they are calls that may fail.
- Scrub windows, register clears, cache-flushing wipes and every timing, side-channel or residue claim: not functional properties. A wipe is "all bytes become zero".
- AES, SHA, bcrypt_pbkdf, Salsa20/8, Ed25519 and the seal cipher's internals: open functions constrained only by their lengths, the cipher by being reversible and the tag by telling contents apart.
- Reflection wipes of standard-library objects, capabilities, HTTP helpers, the redaction rules' regular expressions and the log handler: library behaviour or shallow logic.
- The termination wipe and its signals: input and output.
- General ASN.1 parsing, PKCS#8, SEC 1 and the ECDSA and RSA constructors: the work is done by libraries.
- Janitor keys and slot generations are unbounded integers, so the wrap of a 64-bit counter and the collision error it would give are not reachable here.
- The prekey's contents and page (sealauth.go:130-174): in the buffer the keyring is an answer that may be a key generation or an error; its locks are part of `LockOrder`.
- A call of wipeAllInPlace is one actor per key of its snapshot, which allows more interleavings than its two passes over the keys do.
- Callbacks that keep a slice past their return, and callbacks that overlap a Release of the same handle: contract violations. `Arena.AcquiredSlotIsZero` states the single-owner rule as its assumption.
- LockOrder.NoDeadlock: is about distinct buffers, because a Secret compared with itself takes another path in the source; a caller's callback that itself seals, or destroys a buffer it did not make, is not modelled. The mutex of a workspace inside a pool is never waited for and is left out.
- SecureBuffer.Buffer.WithBytes: stands for the accessors that run a callback; ReadFrom and WriteTo, which move data through a temporary slice, are not modelled.
- ModReduce.ReduceMod: the or-ed carry, the or-ed byte and the masked select are written as addition and choice; `ModReduce.WordForms` gives the identities on 64-bit words. x and m are values, so a dst that overlaps them is not covered.
- Hmac.Hkdf: beyond 255 blocks, which RFC 5869 does not define, the counter octet wraps in the model as it does in the code.
- Scrypt.Mix: the words of a block are its bytes; the alignment of the working memory is not modelled.
- ScryptParams.Check: starts from the three integers' contents; the surrounding sequence and the optional key length are read by a library.
- Pem.ScanExact: the test of a header name, a comparison without regard to case in a library, is any function.
- KeyFile.OpenedUnder: aes128 and aes192, CBC and chacha20-poly1305 are open functions; aes256-ctr, which the writer uses, is the real mode of operation.
- OpenSsh.PrivateRead: the Ed25519 arm; the ECDSA arm is left out and the RSA arm is `Pkcs1.Assemble`.
- KeyFile.Marshal: buffers are plain arrays; the borrow of the seed and the container in lock order is `LockOrder.BorrowOrder`.
- Quarantine.Fifo.Admits: platforms without a quarantine, and empty ranges, go straight to the unmap in the source.
- Canary.Arm: covers the layouts the constructors give, for which the bounds check never skips a zone.
- The Argon2 derivation itself, PKCS#7 unpadding and the sanitizer's cutting of long text are not modelled.
- Pool.EveryCallEnds: a pool without workspaces, which the constructor refuses, is left out; so is its error path, which destroys what it has made.
