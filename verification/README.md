# SCMessenger, modelled and proved in Dafny

This project models the hardest logic of SCMessenger's TypeScript crypto reference and of its
orchestration scripts, and proves what that logic keeps for every input, every run and every
interleaving. `dafny verify dfyconfig.toml` checks all of it.

- **Shamir secret sharing** (`Gf256`, `Polynomials`, `JsNumbers`, `Embedding`, `Sharing`, `Shamir`).
  The table arithmetic is proved to be the field of section 4.2 of FIPS 197, and `combine` is proved to
  undo `split` exactly where it does. JavaScript's numbers are modelled, including `undefined` from a
  lookup outside the tables and the 32-bit `^`, so the model also covers shares numbered 256 and above.
- **Double Ratchet** (`Ratchet`, `RatchetChains`, `RatchetRuns`, `RatchetFifo`, `RatchetStale`,
  `RatchetExact`, `RatchetHeaders`, `RatchetWitness`, `RatchetSymbols`, `DoubleRatchet`). Two parties, any
  interleaving of sends, deliveries and ratchet turns, with key derivation, key agreement and encryption as arbitrary functions under the
  laws they promise, and a symbolic instance of them for concrete runs.
- **X3DH** (`X3dh`, `X3dhRuns`, `X3dhTrust`, `KeyManager`). Agreement of the two sides, whatever the key manager
  does in between, what enters the secret, and which bundles are refused.
- **Orchestration kernel** (`Contract`, `Kernel`, `KernelSafety`, `KernelRuns`, `KernelAttempts`,
  `KernelTasks`, `KernelIntake`, `KernelReview`, `KernelWork`, `KernelWitness`, `Controller`). A durable lifecycle as
  a state machine with a crash between any two durable writes, for an arbitrary manifest.
- **Inbox bridge** (`Inbox`, `InboxSafety`, `InboxRuns`, `InboxSeen`, `InboxWitness`, `InboxBridge`). A crash-prone handoff
  between messages, tickets and replies.
- **Arithmetic and encodings** (`Numbers`, `LittleEndian`, `Positional`, `Montgomery`, `Base58`,
  `Envelopes`). Modular exponentiation, Fermat's little theorem, the Edwards-to-Montgomery map, base58, binary envelopes.
- **Smaller cores** (`Wiring`, `Supervisor`, `LakeRouter`). Reachability and death of declarations,
  a rolling restart limit, a fair rotation.

`Common` holds what several models share; `Markers` and `Endomorphisms` only serve the proofs.

## Where the code does less than its documentation says

Each of these is proved, with the exact condition under which the promise holds and an input or a run
for which it does not.

- `split` accepts more than 255 shares. A share numbered 256 or more holds the secret byte itself, and
  combining two or more shares with one such among them gives zeros. See `Sharing.RecoveryExact`,
  `Sharing.ShareIsSecret` and `Sharing.RecoveryFails`.
- A Double Ratchet message of a chain that its receiver has already turned past makes the receiver lose
  the current chain, because `previousChainLength` is never read. A replayed message uses up the next
  message key. Both happen in runs from the start. See `RatchetStale.FollowsIff`,
  `RatchetExact.ConversationExact`, `RatchetWitness.LateLetterHarms` and `RatchetWitness.ReplayHarms`.
- A message that fails to decrypt still changes the session, except one of the current chain that has no
  stored key and is numbered too far ahead. Section 3.5 of the Signal Double Ratchet specification discards the changes.
  See `RatchetChains.UnchangedExact` and `RatchetWitness.ReplayHarms`.
- What the receiving side sends before it first receives is encrypted under a key that depends on no
  secret, because its sending chain starts at a blank key. See `RatchetRuns.SecretMatters`,
  `RatchetRuns.FirstChainOpen` and `RatchetRuns.FirstChainHappens`.
- The authoritative gate need not see the recorded base with only the worker's patch applied. Only the
  patch's own files are compared with the base, and completing a task does not commit its patch. So two
  tasks completed one after the other, without a crash and under the shipped lifecycle, leave the second
  one tested on top of the first. A crash during one task's gate has the same effect. See
  `KernelRuns.GateTreeExact`, `KernelRuns.SecondOnTop`, `KernelRuns.CrashLeavesPatch` and
  `KernelWitness.UncommittedHarms`.
- Work outside the packet's scope is meant to fail the task. The shipped lifecycle has no move from
  WORKER_DONE to FAILED, so the controller dies instead and the resumed task is tried again. See
  `KernelWitness.ScopeFailureExact`, `KernelWitness.ShippedScopeRetried` and `KernelWitness.StrayHappens`.
- Worktree directories are not collision-free across tasks: the first attempt at a task named like a later
  attempt at another wants the same directory, and whichever comes second is blocked. Isolation identities
  never collide. See `Contract.WorktreeNameExact`, `KernelWitness.ClashHappens` and
  `KernelAttempts.IsolationNeverShared`.
- The bridge's idempotency is keyed on the first twelve alphanumeric characters of a message id, not on
  the id: a different message with the same ones is dropped without a reply. A crash right after a
  ticket is written leaves a ticket that is never acknowledged. See `InboxRuns.EffectExact`,
  `InboxRuns.SameShortDropped`, `InboxRuns.TicketsAccounted`, `InboxWitness.DropHappens` and
  `InboxWitness.OrphanHappens`.
- The fallback key conversion is wrong for the seventeen coordinates above 2^255 - 18, whose
  denominators are negative in JavaScript. See `Montgomery.ConversionExact` and
  `Montgomery.ConversionFails`.
- Deserialising an envelope accepts input shorter than its length field says, ignores a tail, and rounds
  a time of 2^53 or more. See `Envelopes.WriteBackExact`, `Envelopes.SignedWriteBackExact` and
  `Envelopes.WriteBackFails`.
- Declarations that only call each other are neither live nor reported dead. See
  `Wiring.CyclesUnreported` and `Wiring.CycleHappens`.

## Model

| member | source | states |
|---|---|---|
| `Gf256.MulCommutes` | reference/shamir.ts:40-46 | multiplication of bytes modulo x^8 + x^4 + x^3 + x + 1 is commutative |
| `Gf256.MulAssociates` | reference/shamir.ts:40-46 | it is associative |
| `Gf256.MulDistributes` | reference/shamir.ts:35-46 | it distributes over exclusive or |
| `Gf256.OrderIs255` | reference/shamir.ts:11-30 | the powers of 3 first return to 1 at exponent 255 |
| `Gf256.ExpInjective` | reference/shamir.ts:11-30 | the 255 powers of 3 are different, so no table entry is overwritten |
| `Gf256.ExpOnto` | reference/shamir.ts:11-30 | every non-zero byte is a power of 3, so the log table is complete |
| `Gf256.MulByLog` | reference/shamir.ts:40-46 | a product of non-zero bytes is 3 to the sum of the logarithms modulo 255 |
| `Gf256.GfLawful` | reference/shamir.ts:11-56 | bytes with exclusive or and this product form a field |
| `Polynomials.TooManyRoots` | reference/shamir.ts:58-118 | over any field, a polynomial with as many roots as coefficients is zero |
| `Polynomials.Unique` | reference/shamir.ts:58-118 | as many points as coefficients determine a polynomial |
| `Polynomials.InterpolantThrough` | reference/shamir.ts:128-171 | the interpolating polynomial passes through all the given points |
| `Polynomials.LagrangeRecovers` | reference/shamir.ts:128-171 | the Lagrange sum at any t is the value of the shared polynomial at t |
| `Shamir.InitTables` | reference/shamir.ts:11-30 | the loop over shift, reduction and exclusive or fills both tables with the powers of 3 and their logarithms |
| `Shamir.TableMul` | reference/shamir.ts:40-46 | the filled tables multiply as the field does |
| `Shamir.TableDiv` | reference/shamir.ts:49-56 | the filled tables divide as the field does |
| `Shamir.Tables.MulBytes` | reference/shamir.ts:40-46 | the method computes the JavaScript product, `undefined` included |
| `Shamir.Tables.DivBytes` | reference/shamir.ts:49-56 | the quotient, or an error exactly for the divisor zero |
| `Shamir.Tables.Split` | reference/shamir.ts:64-122 | the two errors exactly when k exceeds n or is below 1; otherwise n fresh shares with the values of one polynomial per secret byte |
| `Shamir.Tables.Combine` | reference/shamir.ts:128-171 | the interpolation at zero byte by byte, or the error of no shares or of a zero divisor, for any share numbers, with their 32-bit exclusive or |
| `Shamir.SplitAndCombine` | reference/shamir.ts:64-171 | any k or more different shares combine without error, and to the secret exactly when none is numbered above 255, or one was picked, or the secret is all zeros |
| `Sharing.ShareIsValue` | reference/shamir.ts:96-118 | a share byte numbered below 256 is the value of the polynomial in the field |
| `Sharing.ShareIsSecret` | reference/shamir.ts:96-118 | a share byte numbered 256 or more is the secret byte |
| `Sharing.DividesIffDistinct` | reference/shamir.ts:146-162 | combining divides by zero exactly when two share numbers agree modulo 2^32 |
| `Sharing.CombineFailsExactly` | reference/shamir.ts:128-171 | combining fails exactly without shares, or with a byte to combine and two share numbers that agree modulo 2^32 |
| `Sharing.RecoveryExact` | reference/shamir.ts:58-171 | recovery for every secret, threshold, choice of coefficients and selection of shares, with its exact condition |
| `Sharing.RecoveryFails` | reference/shamir.ts:58-171 | shares 1 and 256 of any non-zero byte combine without error to something else |
| `Sharing.AnySecretPossible` | reference/shamir.ts:58-118 | fewer than k shares are consistent with every secret byte |
| `Sharing.OneExplanation` | reference/shamir.ts:58-118 | with k - 1 shares each secret byte has exactly one coefficient vector, so the shares say nothing about the secret |
| `Sharing.SplitHides` | reference/shamir.ts:58-118 | for every secret and every contents of fewer than k shares there are random bytes with which the split of that secret gives those shares |
| `Sharing.SplitHidesOnce` | reference/shamir.ts:88-118 | with k - 1 shares these random bytes are unique, so every secret is equally likely |
| `DoubleRatchet.DoubleRatchet.AsSender` | reference/double-ratchet.ts:125-156 | the new object is sound and stands at chain 1 of the key schedule it shares with the holder of the private half of the peer key |
| `DoubleRatchet.DoubleRatchet.AsReceiver` | reference/double-ratchet.ts:165-183 | the new object is sound and stands at chain 0 of that schedule, whatever key the sender draws |
| `DoubleRatchet.DoubleRatchet.Encrypt` | reference/double-ratchet.ts:196-222 | the message is numbered by its place in the sending chain and opens under the key of that place, and the object stays sound |
| `DoubleRatchet.DoubleRatchet.PerformDHRatchet` | reference/double-ratchet.ts:269-302 | the updates in place are one turn of the session model and keep both chain keys where their counters say; what the turn does to the message counts is `RatchetHeaders.HeadersTell` |
| `RatchetHeaders.HeadersTell` | reference/double-ratchet.ts:196-302 | in every run a message is numbered by the messages of its chain before it, and names the number its sender sent along its chain before |
| `DoubleRatchet.DoubleRatchet.GetMessageKey` | reference/double-ratchet.ts:308-362 | the loop that stores skipped keys, evicts the oldest and derives the key does what the model does, for any header |
| `DoubleRatchet.DoubleRatchet.Decrypt` | reference/double-ratchet.ts:231-264 | the outcome and new state of the session model, sound for any message |
| `DoubleRatchet.FirstMessage` | reference/double-ratchet.ts:125-264 | two objects made from one secret: the first message of the sender is read by the receiver |
| `RatchetChains.DecryptSound` | reference/double-ratchet.ts:231-362 | for any header the store stays within its capacity with unique entries, the receiving key is the chain start advanced by the count, and a call skips at most the allowed gap |
| `RatchetChains.AlwaysSound` | reference/double-ratchet.ts:231-362 | the same after any sequence of calls with any messages |
| `RatchetChains.SkipToStore` | reference/double-ratchet.ts:331-346 | skipping keeps exactly the newest entries up to the capacity, so keys of abandoned chains are evicted first |
| `RatchetChains.ChainKeyRight` | reference/double-ratchet.ts:308-362 | in one chain, in any order and with any loss, a first delivery gets the sender's key, the store then holds exactly the undelivered numbers from a floor on, and the floor rises only if this chain alone exceeds the capacity |
| `RatchetChains.ReplayTakesNextKey` | reference/double-ratchet.ts:308-362 | a replay gets the key of the next message and uses it up |
| `RatchetChains.ChainKeyExact` | reference/double-ratchet.ts:308-362 | after any loss, replay and eviction a message gets its own key exactly when the key is stored or its number lies ahead within the gap |
| `RatchetChains.UnchangedExact` | reference/double-ratchet.ts:231-264 | a call leaves the session unchanged exactly when the message is of the current chain, has no stored key and is numbered beyond the gap |
| `RatchetRuns.StepRight` | reference/double-ratchet.ts:125-302 | every step of two parties keeps both sides on the same key schedule and reads what was sent |
| `RatchetRuns.ConversationRight` | reference/double-ratchet.ts:125-362 | over every interleaving of sends and deliveries that are of the current or newest chain and still have their key, out of order and after any loss and eviction, each delivery gives the plaintext sent |
| `RatchetExact.ConversationExact` | reference/double-ratchet.ts:125-362 | in every run any letter ever posted, stale or again, gives its words exactly when its key is stored or its number lies ahead within the gap in the current or the next chain |
| `RatchetRuns.SecretMatters` | reference/double-ratchet.ts:165-183 | a chain depends on the shared secret exactly when it is not the receiver's chain before its first turn |
| `RatchetRuns.FirstChainOpen` | reference/double-ratchet.ts:165-222 | in every run the messages of that chain open under a key made from the blank key |
| `RatchetRuns.FirstChainHappens` | reference/double-ratchet.ts:165-222 | a receiver that posts first posts such a message |
| `RatchetFifo.FifoRight` | reference/double-ratchet.ts:125-302 | with ordered lossless channels no further condition is needed: every delivery gives the plaintext sent |
| `RatchetStale.StaleCutsOff` | reference/double-ratchet.ts:231-302 | a message from a chain already turned past makes the receiver lose the current chain |
| `RatchetStale.FollowsIff` | reference/double-ratchet.ts:231-302 | after any genuine message, readable or not, the receiver still follows the chain its peer sends along exactly when the message is of the current or the newest chain |
| `RatchetStale.StaleMayRead` | reference/double-ratchet.ts:308-325 | a late message with a stored key is read all the same |
| `RatchetWitness.LateLetterHarms` | reference/double-ratchet.ts:231-325 | for any primitives without collisions a run from the start in which a late first message is read and the receiver then cannot follow the chain in use |
| `RatchetWitness.ReplayHarms` | reference/double-ratchet.ts:308-362 | a run from the start in which a replay fails, changes the session all the same, and the next message fails with it |
| `RatchetSymbols.LateHappens` | reference/double-ratchet.ts:231-325 | the first of these runs exists for symbolic primitives |
| `RatchetSymbols.ReplayHappens` | reference/double-ratchet.ts:308-362 | so does the second, the changed session and the lost next message included |
| `X3dhRuns.NextSound` | reference/x3dh.ts:189-346 | every operation keeps one-time ids ascending and below the next id, unused keys paired, and the signed prekey signed |
| `X3dhRuns.SignedExact` | reference/x3dh.ts:312-371 | after any operations a signed prekey is found by its id exactly if there was no rotation |
| `X3dhRuns.OneTimeExact` | reference/x3dh.ts:330-359 | a one-time private key is returned exactly until its id is marked, and never again after |
| `X3dhRuns.ReplenishExact` | reference/x3dh.ts:278-298 | after replenishing, the minimum is met exactly when it is at most the initial number or was met before |
| `X3dhRuns.Offered` | reference/x3dh.ts:248-273 | every published one-time prekey is the public half of an unused pair found by its id |
| `X3dhRuns.Agree` | reference/x3dh.ts:445-632 | a bundle used within a day lets the sender initiate; the receiver still has the keys exactly without a rotation or a use of the chosen prekey, and then both derive the same secret and associated data |
| `X3dhRuns.AgreeAlways` | reference/x3dh.ts:189-650 | the same for every bundle a manager can reach |
| `X3dhTrust.AcceptedIsSigned` | reference/x3dh.ts:445-495 | with unforgeable signatures, whoever's bundle is accepted has signed exactly the prekey in it, and it is at most a day old |
| `X3dhTrust.RefusedExactly` | reference/x3dh.ts:445-495 | a published bundle, its signed prekey possibly replaced, is refused exactly when it is from the future, more than a day old, or was altered |
| `X3dhTrust.SecretCovers` | reference/x3dh.ts:478-545 | two initiations with the same secret agree on all three or four shared values, which enter in the order of section 3.3 of the X3DH specification |
| `X3dhTrust.MessageNames` | reference/x3dh.ts:546-560 | the message names the sender, its ephemeral key and the prekeys used, and the associated data names both parties in order |
| `X3dhTrust.GeneratedKeys` | reference/x3dh.ts:189-243 | a new bundle finds one private key per draw under the ids from 1 on, and the signed prekey under 1 |
| `X3dhTrust.ReplenishedKeys` | reference/x3dh.ts:278-298 | replenishing adds the drawn keys under the next ids and changes no other lookup |
| `X3dhTrust.SupplyExact` | reference/x3dh.ts:278-298 | the supply is brought up to the initial number exactly when it is below both the minimum and that number |
| `X3dhTrust.MarkWipes` | reference/x3dh.ts:330-346 | a marked prekey is wiped where it stands, a used one and every other stay as they are |
| `X3dhTrust.IdsCount` | reference/x3dh.ts:189-346 | whatever happens to a bundle, one-time ids are 1, 2, 3 and so on without a gap and the signed id counts the rotations |
| `X3dhTrust.OfferedExactly` | reference/x3dh.ts:248-273 | a prekey is on offer exactly when it is unused and fewer than twenty unused ones come before it |
| `KeyManagers.KeyManager.GenerateKeyBundle` | reference/x3dh.ts:189-208 | the generated bundle, which is sound |
| `KeyManagers.KeyManager.ReplenishOneTimePrekeys` | reference/x3dh.ts:278-298 | the loop adds exactly the missing prekeys with consecutive ids |
| `KeyManagers.KeyManager.RotateSignedPrekey` | reference/x3dh.ts:312-326 | only the new signed prekey is found from then on, under an id above every earlier one; one-time prekeys are found as before and the bundle stays sound |
| `KeyManagers.KeyManager.MarkOneTimePrekeyUsed` | reference/x3dh.ts:330-346 | true exactly when the private key was still available, and from then on it is not |
| `Contract.IdentityInjective` | scripts/orchestration_worktree.py:11-42 | isolation identities tell apart both tasks and attempts |
| `Contract.WorktreeNameExact` | scripts/orchestration_worktree.py:25-42 | two attempts get the same directory exactly when they are the same, or one is the first attempt at a task whose id spells a later attempt at the other |
| `Contract.RequiredExact` | scripts/orchestrate_strict.py:276-307 | some role is required exactly when review is; a delivery needs three; a protected path needs the critical validator |
| `KernelSafety.CountingReviewed` | scripts/orchestrate_strict.py:406-473 | evidence that counts was assigned and recorded in the present attempt for the present patch, by a dispatched reviewer outside the writer's isolation |
| `KernelSafety.ReadyReviewed` | scripts/orchestrate_strict.py:276-307 | a record ready for integration has such a review for every required role |
| `KernelSafety.AssignedOk` | scripts/orchestrate_strict.py:333-393 | registering an assignment keeps every invariant |
| `KernelSafety.SubmittedOk` | scripts/orchestrate_strict.py:427-456 | recording evidence keeps every invariant |
| `KernelSafety.CompletedOk` | scripts/orchestrate_strict.py:567-618 | verifying and applying the patch keeps every invariant |
| `KernelSafety.GatedOk` | scripts/orchestrate_strict.py:619-639 | the gate's verdict, with undo or without, keeps every invariant |
| `KernelSafety.ProceededOk` | scripts/orchestrate_strict.py:642-657 | cold resume and recovery keep every invariant |
| `KernelSafety.NextOk` | scripts/orchestrate_strict.py:228-865 | every step of the controller, every crash and every outside change keeps every invariant |
| `KernelRuns.CompleteOnlyIf` | scripts/orchestrate_strict.py:502-639 | in every run a task is COMPLETE only if the gate passed on a patch captured in the same attempt, in scope, on the recorded base, with every required role's independent review of that patch in that attempt |
| `KernelRuns.GateSawCapturedPatch` | scripts/orchestrate_strict.py:540-594 | without hash collisions the patch under the gate is the captured one |
| `KernelRuns.HistoryLawful` | scripts/orchestrate_strict.py:228-265 | every recorded history is a walk in the manifest's transition table that ends in the recorded state |
| `KernelRuns.OnlyPresentEvidenceCounts` | scripts/orchestrate_strict.py:459-473 | evidence of one attempt never counts for a later one, in any run |
| `KernelRuns.GateTreeExact` | scripts/orchestrate_strict.py:588-625 | the gate saw exactly the base with the patch if and only if the checkout was clean when integration began |
| `KernelRuns.SecondOnTop` | scripts/orchestrate_strict.py:597-639 | two ready tasks with patches to different files, completed one after the other from a clean checkout: the second gate ran on a tree that was not its base |
| `KernelRuns.CrashLeavesPatch` | scripts/orchestrate_strict.py:597-639 | after a crash during one task's gate another task is completed on a tree that was not its base |
| `KernelWitness.UncommittedHarms` | scripts/orchestrate_strict.py:597-852 | from any clean start, any two packets for different files reach such a state without a crash |
| `KernelWitness.HarmHappens` | orchestration/manifest.yaml:20-38 | such a run exists under the shipped lifecycle |
| `KernelWitness.KeptWorkDelivered` | scripts/orchestrate_strict.py:597-863 | work that keeps to its packet, on a clean checkout, is COMPLETE after one pass and a passing gate |
| `KernelWitness.ScopeFailureExact` | scripts/orchestrate_strict.py:836-843 | work outside the packet is recorded as FAILED exactly when the lifecycle lets WORKER_DONE move there |
| `KernelWitness.ShippedScopeRetried` | orchestration/manifest.yaml:20-38 | under the shipped lifecycle it is not: the record stays and the resumed task is tried again |
| `KernelWitness.StrayHappens` | scripts/orchestrate_strict.py:733-843 | such work happens from any fresh start, and its record stays in WORKER_DONE |
| `KernelWitness.TakenDirectoryBlocks` | scripts/orchestrate_strict.py:810-816 | a task whose next directory is taken is blocked |
| `KernelWitness.ClashHappens` | scripts/orchestration_worktree.py:25-42 | from any fresh start a task is blocked because another, with a valid id, is named like its second attempt |
| `KernelAttempts.IsolationNeverShared` | scripts/orchestrate_strict.py:642-657 | in every run, recoveries included, no two dispatched writers share an isolation identity |
| `KernelTasks.AttemptReaches` | scripts/orchestrate_strict.py:810-852 | an attempt is a run of the state machine, so it can be cut short anywhere |
| `KernelTasks.ConcludedReaches` | scripts/orchestrate_strict.py:854-863 | so is what follows an attempt |
| `KernelTasks.TaskReaches` | scripts/orchestrate_strict.py:733-863 | so is a whole pass of the task loop, resumed tasks included |
| `KernelTasks.PreparedEnds` | scripts/orchestrate_strict.py:783-809 | three durable writes at most bring a record to its packet, to its review or to the end of the pass |
| `KernelIntake.IntakeKept` | scripts/orchestrate_strict.py:253-307 | a record is created by a start with its id and keeps for good the packet, both flags and the commit current at that start |
| `KernelIntake.SomeStepCreates` | scripts/orchestrate_strict.py:253-307 | from a fresh start every record in the store has such a start |
| `KernelIntake.FlagsForceReview` | scripts/orchestrate_strict.py:253-307 | a task started with the security flag, or touching a protected path, is COMPLETE only after an independent critical validator's review of its patch; with the delivery flag or a delivery keyword only after all three roles; the patch stays within the packet given at the start |
| `KernelReview.AssignmentsExact` | scripts/orchestrate_strict.py:310-393 | a reviewer assignment is recorded exactly for a called, independent role of a held task with a patch on its base, under a new id, by someone other than the writer, with its provenance; and what is recorded |
| `KernelReview.ReviewsExact` | scripts/orchestrate_strict.py:396-456 | a review is recorded exactly if it reports full success on this task under the first assignment of its id, dispatched for this role, patch and writer; and what is recorded |
| `KernelReview.ReadyExact` | scripts/orchestrate_strict.py:459-505 | integration is ready exactly when every role called for by the flags, protected paths and delivery keywords has such a review of the present patch |
| `KernelReview.ReviewsSuffice` | scripts/orchestrate_strict.py:333-505 | any one reviewer who is not the writer can give whatever reviews a held task lacks, and it comes to its integration with nothing else changed |
| `KernelWork.ScopeExact` | scripts/orchestrate_strict.py:516-518 | files are in scope exactly when each is an allowed path up to the lean of its slashes |
| `KernelWork.VerdictExact` | scripts/orchestrate_strict.py:828-843 | a worker is taken up exactly if it exited well, reported full success on this task in this role, and changed something within the packet only |
| `KernelWork.WorkSatisfies` | scripts/orchestrate_strict.py:810-863 | in every run, whatever crashed, a record at VERIFY or beyond has such a report on it |
| `KernelWork.FailedGate` | scripts/orchestrate_strict.py:597-639 | a failed gate whose patch is taken back leaves the checkout as it was and the task at RETRY; otherwise the task is FAILED and the patch still applied; nothing else changes |
| `KernelWork.RefusedPatch` | scripts/orchestrate_strict.py:597-620 | a patch that cannot be verified or applied is forgotten and its task tried again; nothing else changes |
| `KernelWork.Recovered` | scripts/orchestrate_strict.py:642-657 | a task found in the middle of an attempt forgets its patch and is tried again |
| `KernelWork.StartsExact` | scripts/orchestrate_strict.py:733-782 | a task is taken up exactly with a provider, for one of the two writer roles and, if it exists, in a phase that is known and not terminal |
| `KernelWork.UnknownUntouched` | scripts/orchestrate_strict.py:204-225 | in every run a record in a phase the manifest does not know is never changed |
| `KernelWork.PassEnds` | scripts/orchestrate_strict.py:733-863 | every pass of the task loop ends, done or dead, with the controller in the middle of nothing |
| `KernelWork.GateEnds` | scripts/orchestrate_strict.py:614-639 | so does every run of the gate |
| `KernelWork.HeldResumes` | scripts/orchestrate_strict.py:491-499 | a held task taken up again goes to its integration if its reviews are complete, and otherwise stays as it is |
| `KernelWork.AdvanceNeeds` | scripts/orchestrate_strict.py:491-499 | only a record awaiting review and with all its reviews is advanced |
| `KernelWork.Unhindered` | scripts/orchestrate_strict.py:597-639 | others may change the checkout, the patch files and the worktrees to anything between any two steps, except during the gate |
| `Controllers.WriteExact` | scripts/orchestrate_strict.py:228-239 | a write moves the record exactly when the manifest allows it, touches no other record, and keeps a lawful history lawful |
| `Controllers.Controller.MatchingAssignment` | scripts/orchestrate_strict.py:396-403 | the first assignment with the id, or none if there is none |
| `Controllers.Controller.RegisterReviewAssignment` | scripts/orchestrate_strict.py:333-393 | succeeds exactly when every check passes, takes that step of the state machine, and keeps its invariants |
| `Controllers.Controller.RecordReviewEvidence` | scripts/orchestrate_strict.py:427-456 | the checks one after the other amount to the evidence step of the state machine, and its invariants are kept |
| `Controllers.Controller.AdvanceReview` | scripts/orchestrate_strict.py:491-499 | takes the two steps to INTEGRATE, ends idle and keeps the invariants |
| `Controllers.Controller.VerifyWorkerDiff` | scripts/orchestrate_strict.py:540-594 | a patch that is returned is the preserved one, has the recorded hash, names exactly the changed files, all in scope, and applies to the recorded base where it touches it |
| `Controllers.Controller.CompleteIntegration` | scripts/orchestrate_strict.py:597-639 | takes the apply step and the gate step; a task COMPLETE afterwards was delivered as the run theorem says |
| `Controllers.Controller.RecoverInterruptedDispatch` | scripts/orchestrate_strict.py:642-657 | abandons the attempt and its patch and keeps the invariants |
| `Controllers.Controller.RunAttempt` | scripts/orchestrate_strict.py:810-852 | whatever the worker and git answer, the body of the loop is the attempt of the state machine and keeps its invariants |
| `Controllers.Controller.Conclude` | scripts/orchestrate_strict.py:854-863 | on to review or integration as the state machine does, keeping its invariants |
| `Controllers.Controller.CaptureWorkerDiff` | scripts/orchestrate_strict.py:827-852 | rejects the worker's result or binds the record to the hash of its patch, keeping the invariants |
| `Controllers.Controller.StartTask` | scripts/orchestrate_strict.py:733-782 | loads or creates the record as the state machine does and keeps its invariants; what a created record holds is `KernelIntake.IntakeKept` |
| `Controllers.Controller.PrepareTask` | scripts/orchestrate_strict.py:783-809 | the record is ready for an attempt, has its evidence, or is done with for this pass |
| `Controllers.Controller.RunTask` | scripts/orchestrate_strict.py:724-863 | one pass of the task loop is that run of the state machine, keeps its invariants and leaves the controller idle |
| `Controllers.DeliverTask` | scripts/orchestrate_strict.py:597-863 | a new controller through one task and the gate: COMPLETE means delivered, and work that keeps to its packet on a clean checkout does get there |
| `Inbox.CommandExact` | scripts/inbox_bridge.py:405-417 | a text is a handoff command exactly when the word stands first, in any case, alone or before white space as Python knows it; the body is what follows |
| `Inbox.MarkerExact` | scripts/inbox_bridge.py:327-346 | the file name search finds a ticket for exactly the ids that share its short id |
| `InboxSafety.NextOk` | scripts/inbox_bridge.py:633-799 | every step, crash and loss of the state file keeps the invariants of tickets, promises and accounts |
| `InboxRuns.RepliesAreEarned` | scripts/inbox_bridge.py:562-583 | every reply sent answers a polled message of an allow-listed peer that is not housekeeping, to that peer, with its ticket or chat line already durable |
| `InboxRuns.RoutesExact` | scripts/inbox_bridge.py:405-583 | each route exactly by sender, the three control kinds, blank text and the command word |
| `InboxRuns.TicketsAreCommands` | scripts/inbox_bridge.py:721-758 | in every run a ticket carries a command, a chat line does not, and housekeeping is neither |
| `InboxSeen.NotTwice` | scripts/inbox_bridge.py:314-319 | whatever crashes, a message remembered as handled is not taken up again before as many others as the window holds, unless the state file is lost |
| `InboxSeen.NothingBeforeBaseline` | scripts/inbox_bridge.py:659-668 | without a baseline nothing is read, written or sent |
| `InboxSeen.NothingAfterLoss` | scripts/inbox_bridge.py:301-311 | nor after the state file was lost, until the next baseline |
| `InboxSeen.BaselineOnce` | scripts/inbox_bridge.py:659-668 | a baseline made is made again only after the state file was lost |
| `InboxSeen.ShortIdIgnores` | scripts/inbox_bridge.py:327-329 | a short id ignores everything but letters and digits |
| `InboxSeen.ShortIdIs` | scripts/inbox_bridge.py:327-329 | of those it takes the first twelve, or a fixed word if there are none |
| `InboxSeen.MatchesExact` | scripts/inbox_bridge.py:332-346 | the names looked for are exactly those a ticket with this short id may have |
| `InboxSeen.SpacesAre` | scripts/inbox_bridge.py:398-417 | the blanks skipped are exactly Python's twenty-nine |
| `InboxSeen.LowerIs` | scripts/inbox_bridge.py:398-417 | the command word is compared with only the twenty-six capitals folded |
| `InboxRuns.OneTicketEach` | scripts/inbox_bridge.py:338-346 | no message id, and no short id, ever gets two tickets |
| `InboxRuns.TicketsAccounted` | scripts/inbox_bridge.py:734-747 | every ticket is owed or acknowledged, or was orphaned by a crash or a lost state file, never both |
| `InboxRuns.SettledForever` | scripts/inbox_bridge.py:764-799 | once an acknowledgement is not owed, none is ever sent again |
| `InboxRuns.OrphansUnacknowledged` | scripts/inbox_bridge.py:697-703 | an orphaned ticket stays and is never acknowledged |
| `InboxRuns.EffectExact` | scripts/inbox_bridge.py:692-758 | a message takes effect exactly when its short id has no ticket and it carries human text from an allow-listed peer |
| `InboxRuns.SameShortDropped` | scripts/inbox_bridge.py:697-703 | a message whose short id another ticket has is dropped for good |
| `InboxWitness.OrphanHappens` | scripts/inbox_bridge.py:692-747 | any handoff message is orphaned by a crash right after its ticket, and never acknowledged whatever follows |
| `InboxWitness.DropHappens` | scripts/inbox_bridge.py:697-703 | once a message has its ticket any other with the same short id is dropped in whatever follows |
| `InboxWitness.ShortClash` | scripts/inbox_bridge.py:327-330 | two different ids have the same short id |
| `InboxBridge.PassIsRun` | scripts/inbox_bridge.py:633-799 | a whole pass is a run of the state machine, so it can be cut short anywhere |
| `InboxBridge.Bridge.DrainOnce` | scripts/inbox_bridge.py:659-761 | the first pass only marks the last ids of the history, and nothing else, as seen; after any later one the seen ids are the last of the old ones and the handled ones in order, every fresh handoff has its ticket and every fresh chat message its line unless its short id has a ticket, as the run by time does, and the invariants are kept |
| `InboxBridge.ByTimeExact` | scripts/inbox_bridge.py:689-690 | the order of a pass is the same messages sorted by time, in their old order within a time |
| `InboxBridge.PickedFresh` | scripts/inbox_bridge.py:673-688 | a pass takes up exactly the received messages of allow-listed peers that are not yet seen |
| `InboxBridge.Bridge.Drain` | scripts/inbox_bridge.py:692-758 | the loop over any fresh messages serves each of them and keeps the invariants |
| `InboxBridge.HandledServes` | scripts/inbox_bridge.py:692-758 | one message is served, its effect is owed an answer, and nothing written before is touched |
| `InboxBridge.Bridge.FlushAcks` | scripts/inbox_bridge.py:764-799 | outstanding replies in order, each saved after its send, up to the first failure; tickets and chat stay, the invariants are kept |
| `InboxBridge.Serve` | scripts/inbox_bridge.py:633-799 | from the very first start through any passes every reply is earned and no two tickets share a short id |
| `Numbers.Fermat` | reference/primitives.ts:76-87 | for a prime p and a not divisible by p, p divides a^(p-1) - 1 |
| `Montgomery.ModPow` | reference/primitives.ts:76-85 | the loop computes base^exp with JavaScript's remainder, for every base and exponent and modulus above 1 |
| `Montgomery.ReadCoordinate` | reference/primitives.ts:64-70 | the loop over or and shift reads the bytes without the sign bit |
| `LittleEndian.WriteBytes` | reference/primitives.ts:90-93 | the 32 bytes spell any integer modulo 2^256 |
| `Montgomery.ConvertPublicKey` | reference/primitives.ts:57-96 | the bytes spell the computed quotient |
| `Montgomery.QuotientSolves` | reference/primitives.ts:72-88 | whenever 1 - y is invertible the quotient solves u (1 - y) = 1 + y modulo the prime (section 4.1 of RFC 7748) |
| `Montgomery.ConversionExact` | reference/primitives.ts:57-96 | of all 32-byte inputs exactly those with y at most 2^255 - 19 and not 1 convert to bytes that solve the equation |
| `Montgomery.ConversionFails` | reference/primitives.ts:57-96 | the bytes of 2^255 - 17 convert to bytes that do not solve that equation |
| `LittleEndian.IncrementNonce` | reference/primitives.ts:456-464 | the carry loop adds one modulo the width of the nonce |
| `LittleEndian.NonceFresh` | reference/primitives.ts:456-464 | no nonce repeats before the counter has gone through its whole width |
| `Base58.RecodedBack` | scripts/peerid_to_pubkey.py:3-9 | changing base and back is the identity on all digit strings, and leading zeros correspond one to one |
| `Base58.Decode` | scripts/peerid_to_pubkey.py:3-9 | the loops compute this change of base, or fail exactly on a foreign character |
| `Base58.DecodeInjective` | scripts/peerid_to_pubkey.py:3-9 | decoding is injective on all base58 strings |
| `Envelopes.NumberToBytes` | reference/envelope.ts:355-363 | for any number that does not underflow, negative and fractional ones included, the low byte of its integer part after the seven bytes of its floor divided by 256; zeros for not-a-number |
| `Envelopes.CutTowardZero` | reference/envelope.ts:355-363 | the integer part whose low byte is kept is the whole number on the way to zero, for negative numbers too |
| `Envelopes.StampExact` | reference/envelope.ts:355-374 | of the numbers below 2^53 exactly the whole non-negative ones are read as written |
| `Envelopes.BytesToNumber` | reference/envelope.ts:368-374 | the loop reads eight bytes with rounding at each step |
| `Envelopes.Deserialize` | reference/envelope.ts:278-306 | the moving offset reads exactly the fields of the format, slices clamped |
| `Envelopes.RoundTrip` | reference/envelope.ts:260-306 | reading back a written envelope gives it, whatever follows, exactly when its time is a whole non-negative number |
| `Envelopes.WriteBackExact` | reference/envelope.ts:260-306 | writing back what was read gives the same bytes exactly when the input is as long as its length field says and its time is a number that is not rounded |
| `Envelopes.EarlyWriteBack` | reference/envelope.ts:260-306 | an envelope of its right length with a time below 2^53 is written back as it was |
| `Envelopes.WriteBackFails` | reference/envelope.ts:260-306 | 138 zero bytes are read and written back as something else |
| `Envelopes.RoundedIff` | reference/envelope.ts:368-374 | reading bytes gives their number exactly when that number is not rounded |
| `Envelopes.SignedRoundTrip` | reference/envelope.ts:311-350 | the same round trip for signed envelopes |
| `Envelopes.SignedWriteBackExact` | reference/envelope.ts:311-350 | the same exact condition for signed envelopes |
| `Envelopes.ContentsDetermined` | reference/envelope.ts:95-101 | the signed bytes determine every signed field of an encrypted envelope |
| `Envelopes.DataDetermined` | reference/envelope.ts:206-209 | the signed bytes determine data and timestamp of a signed envelope |
| `Envelopes.Delivered` | reference/envelope.ts:57-190 | what is sealed, written, read and opened by the right recipient is the data |
| `Envelopes.OpenedIsSigned` | reference/envelope.ts:139-160 | an envelope that opens is of version 1 and was signed by its sender over all its other fields |
| `Envelopes.AlteredRefused` | reference/envelope.ts:139-160 | an envelope with any field altered after signing does not open |
| `Envelopes.OnlyRecipientOpens` | reference/envelope.ts:57-190 | a sealed envelope opens only for a key that agrees with the ephemeral key on the recipient's value |
| `Wiring.Live` | scripts/check_wiring.py:477-510 | the worklist computes exactly the declarations reachable from the roots along calls into targets not dead in the manifest |
| `Wiring.ZeroCallers` | scripts/check_wiring.py:511-538 | the dead set is the manifest's plus exactly the suspects nobody else calls, each with one finding; a finding is of a reported kind, not live, not in a live container, and has no caller but itself |
| `Wiring.TransitiveDeath` | scripts/check_wiring.py:540-571 | repeated passes end in the least set that holds every suspect called only by dead ones; each has one finding, of a reported kind, not live and not in a live container |
| `Wiring.OrderIrrelevant` | scripts/check_wiring.py:540-571 | the order of the declarations does not matter |
| `Wiring.DeadExactly` | scripts/check_wiring.py:540-571 | exactly the declarations from which every way back along the callers ends in a dead one are dead |
| `Wiring.CyclesUnreported` | scripts/check_wiring.py:540-571 | declarations that keep each other called are never reported |
| `Wiring.CycleHappens` | scripts/check_wiring.py:540-571 | two declarations that only call each other are suspect and never reported |
| `Supervisor.Generations` | scripts/soak_supervisor.py:508-593 | the loop over generations: which runs it restarts after, when, with which waits, and the cause, exit code and generation of its ending |
| `Supervisor.Supervise` | scripts/soak_supervisor.py:508-593 | with a clock that does not go back any cap + 1 restarts span more than an hour; only a run that went down on its own is followed by a restart, the wait after r restarts since the last healthy run is backoff step r or the last one, a crash loop is declared only when one more would exceed the cap, and every ending has its cause and exit code |
| `Supervisor.AtMostPerHour` | scripts/soak_supervisor.py:571-582 | in whatever hour one looks there are at most cap restarts |
| `LakeRouter.Route` | scripts/lake_route.py:174-215 | the first rung with a key and an available model, the first available position in rotation order, and nothing exactly when there is none |
| `LakeRouter.RouteIsPick` | scripts/lake_route.py:202-213 | each route is one pick of the rotation |
| `LakeRouter.FairTurn` | scripts/lake_route.py:202-213 | with m positions available any m consecutive picks return each exactly once |
| `LakeRouter.RouteTurn` | scripts/lake_route.py:174-215 | consecutive routes on an unchanged ladder all go to its first usable rung and follow the rotation; as many as models are available take each exactly once |

## Left out

- Cryptography itself: HKDF, SHA-2, X25519, Ed25519 and XChaCha20-Poly1305 are arbitrary functions with commutativity, correctness and, where stated, no collisions.
- X3dhTrust.AcceptedIsSigned: like Envelopes.OpenedIsSigned and Envelopes.OnlyRecipientOpens it assumes signatures that cannot be forged, a key derivation without collisions and decryption that fails under a wrong key, where it says so.
- Randomness, clocks and the network are parameters; in particular Shamir's coefficients, ephemeral keys and the random choice of a one-time prekey are arbitrary.
- Shamir.Tables.Combine: share numbers are naturals; fractions and negative numbers, which no split makes, are left out.
- Sharing.RecoveryExact: share numbers are below 2^32, because a split keeps its shares in one JavaScript array.
- DoubleRatchet.DoubleRatchet.Decrypt: wiping of used keys is not modelled, the id of a skipped key is a pair instead of a joined string, and nonce and ciphertext are separate fields instead of slices of one buffer.
- KeyManagers.KeyManager.MarkOneTimePrekeyUsed: keys are values, so that wiping a key also clears a copy handed out earlier is not modelled; the lock set is left out because the method is synchronous.
- Montgomery.ConversionExact: that 2^255 - 19 is prime is a hypothesis, not proved.
- KernelRuns.CompleteOnlyIf: one controller process, whose state and patch writes are atomic; nobody else changes the checkout between apply and the gate's verdict; git apply is a function of patch and tree.
- Controllers.Controller.UpdateState: like WriteState, CreateWorktree, Dispatch and Finish it carries out a single step, which KernelSafety.NextOk covers.
- Controllers.Controller.RunTask: reading the queue, routing and lane selection are replaced by their answers; a dry run is left out.
- KernelWitness.HarmHappens: the protected paths and delivery keywords of the manifest are parameters.
- Envelopes.Deserialize: key length checks of the encrypt, decrypt and sign functions and the comparison with an expected public key are left out.
- InboxBridge.Bridge.DrainOnce: JSON parsing of message contents is replaced by its result; replies queued by older versions as bare strings are left out; ticket names are compared case-sensitively.
- Supervisor.Supervise: the probe loop `watch`, the captured evidence and the supervised bridge process are left out.
- Envelopes.NumberToBytes: infinite numbers are treated as not-a-number, whose bytes they share; negative numbers so small that dividing by 256 underflows to zero are divided exactly instead.
- Envelopes.WriteBackExact: rounding is any function that is exact below 2^53, idempotent, close, and keeps a number without its last byte exact; that double precision is one is not proved.
- LakeRouter.Route: key files, the ledger's parsing and cooldown times are replaced by which models are available.
- Wiring.Live: extraction of declarations and calls from Kotlin sources and the manifest is replaced by its result.
- Prekey and message serialisation as JSON, IndexedDB storage, the build lock and the simplified ratchet of the primitives file: thin wrappers or superseded code.
- The Rust core, the mobile and web clients, dispatchers, log analysers and build scripts.
