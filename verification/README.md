# Range42 backend: verified models of its durable-state protocols

This project models, in Dafny, the parts of the Range42 backend that must stay right across crashes,
restarts and concurrent workers, and a few exact transformations next to them. A reader who keeps it beside the
repository finds one group of modules per concern:

- **Native snapshot sets** (`Snapshot*.dfy`). A dispatcher commits an intent per member before each native write,
  a separate reconciler reads the saved native tasks back, plans supersede each other, and a workspace lock outlives the
  process. Every commit, native write, crash and foreign change is one step of a state machine; `issued` is the
  multiset of native writes ever sent. The dispatcher and the reconciler are also written as loops that commit step by
  step while the rest of the installation moves between any two commits. `SnapshotPlans`, `SnapshotTurns` and `SnapshotReadback`
  say what a plan, a turn and a readback come to.
- **Allocation and the resource ledger** (`FirstFit.dfy`, `VmAllocation*.dfy`, `LegacyScan.dfy`, `Ledger*.dfy`). The two-phase
  planner (pinned values first, then first fit), optimistic probing outside the writer lock with re-planning inside it,
  expiring leases, deployment claims, and the transfer of a lease to a claim.
- **Event pipeline** (`Event*.dfy`). The append-only log as a file of cells that a crash may cut at any byte, sequence
  recovery, cursor reads, the watcher's receipts and final scan, and the deletion of raw files against receipts.
- **Attempt lifecycle and recovery** (`Lifecycle*.dfy`). Callbacks, cancellation, recovery passes, workspace locks, and
  process identity with PIDs that are used again.
- **Maintenance admission** (`Maintenance.dfy`). Shared and exclusive file locks, tasks that own their lock, the persistent
  intent, and the idle audit.
- **Transformations, validators, cache** (`Tainted*.dfy`, `Secret*.dfy`, `Redaction*.dfy`, `Hardware*.dfy`, `Scenario*.dfy`,
  `InventoryMeaning.dfy`, `CatalogCache.dfy`).

Code that changes state step by step is modelled by classes and methods with loops, each proved equal to a function of
the old state; the theorems are about those functions and about all runs. The modules named `*Meaning`, with `LedgerAnswers`,
`SnapshotPlans`, `SnapshotTurns` and `SnapshotReadback`, state the answers of these functions once more over the plain
stored fields, case by case, and prove the two equivalent.

## Findings

Places where the code does less than its documentation says, or where a wished-for property fails, each with the condition
under which it holds and a concrete failing input.

- A cleanup that counts a complete but unterminated last record as a receipt deletes its raw file, and the next append makes
  that record unreadable: `EventPipeline.ReceiptSurvives` states exactly which receipts survive, and
  `EventPipeline.CleanedReceiptIsLost` shows a log, reached by a crash, that loses one.
- A watcher that starts on a torn tail loses the first record it appends: exactly then, by `EventPipeline.SeenIsRecorded`; a
  log reached by a crash is in `EventPipeline.CrashLosesRecord`.
- The known-string redaction (app/core/redaction.py:154-166) removes a secret from every text, whatever the other secrets are,
  exactly when no marker can complete it: neither contains the other, and no end of one is a beginning of the other
  (`TaintedSecrets.SecretHiddenExactly`). For one fixed list it is sufficient (`TaintedStrings.NoneLeft`), and exact when no
  needle overlaps the marker only in part, as with needles without brackets (`TaintedStrings.GuaranteeExactly`).
  `TaintedEvents.BracketsMayLeak` is a leaking pair of needles.
- A document whose root is itself marked is published with its secrets, exactly when its mark is not replaced and a secret is
  resolved into it: `SecretIndependence.PublishedIndependent`, with a leaking document in `SecretIndependence.MarkedRootLeaks`.
- The denylist documents that a denied key is redacted at any depth (app/core/redaction.py:86-89); lists and objects under such a
  key are walked and stay. The promise holds exactly when denied keys hold only scalars (`RedactionPipeline.DeniedExactly`); a
  list of scalars passes unchanged (`RedactionPipeline.DeniedListPasses`).
- An empty patch of a property string is the identity exactly when no item is literally keyed `_first`: `HardwarePatch.PatchNothing`,
  with such a string in `HardwarePatch.LiteralFirstIsLost`.
- `tail_events` documents events after `from_seq` (app/core/events.py:121); the code also yields the one at `from_seq`, and the
  model follows the code. The documented promise holds exactly when no readable record has that number
  (`EventReaders.OnlyAfterExactly`); a one-record log on which it fails is in `EventReaders.StartIsYielded`.

## Assumptions

Digests are injective and identifiers from `uuid4` are fresh. The clock of the ledger does not go back. Reads of Proxmox, of Git and of
the process table are answers supplied from outside, at any value. SQLite writer transactions and `flock` calls are atomic
steps. Addresses are numbers and a subnet is an interval of them; a request satisfies app/schemas/v1/allocation.py (unique node
identifiers and network identifiers, contiguous interface indexes, all-or-none unique interface keys, prefixes 16 to 30).
An object of a document holds no key twice. A native dispatch sends one write. A PID reported for an attempt is that of the
process its identity file was written for. Sessions do not expire objects on commit, so a refreshed host row is the one that is used.

## Model

| member | source | states |
|---|---|---|
| SnapshotSteps.StepKeeps | app/core/snapshot_sets.py:596-858 | Every planner, dispatcher, reconciler, crash and foreign step keeps the whole invariant: plan digests, row shapes, links between operation, set, attempt and lock, and write accounting |
| SnapshotTheorems.AtMostOnce | app/core/snapshot_sets.py:672-719 | In every run no member of any operation is written twice, and a planned or not-started row has never been written |
| SnapshotTheorems.NotStartedForever | app/core/snapshot_sets.py:735-741 | Once a row is marked not started that member is never written, whatever happens later, so reconciliation's rewrite is sound |
| SnapshotTheorems.RowsTellWhatWasSent | app/core/snapshot_sets.py:697-717 | An accepted, succeeded or failed row was written exactly once, a planned or not-started one never |
| SnapshotTheorems.IntentBeforeWrite | app/core/snapshot_sets.py:694-700 | A native write leaves the process only when its intent is committed and it was not sent before |
| SnapshotTheorems.RunMoves | app/core/snapshot_sets.py:686-719 | Over any run operations and rows only move forward; an accepted row is never doubted and a settled row never changes |
| SnapshotTheorems.TerminalMeansRows | app/core/snapshot_sets.py:811-819 | A terminal operation is succeeded iff all rows are, failed iff none is, partial iff some but not all are |
| SnapshotTheorems.CompleteMeansProven | app/core/snapshot_sets.py:784-793 | A complete set has for every member a native proof of the configuration that was planned |
| SnapshotTheorems.PlannedMeansUntouched | app/core/snapshot_sets.py:652-671 | While a plan is still executable no other operation of its set has started since it was made |
| SnapshotTheorems.ActiveHoldsLock | app/core/locks.py:73-144 | At every clock value an active operation's own attempt holds its deployment's lock, nobody can take it, and no second operation is active there |
| SnapshotTheorems.UnconfirmedKeepsOwnership | app/core/snapshot_sets.py:708-717 | Once a row is unconfirmed the operation stays in review and its lock is kept for ever |
| SnapshotDispatch.SnapshotService.Execute | app/core/snapshot_sets.py:596-720 | Executing takes exactly the protocol's start and then the steps of its turns, with others moving between commits and death possible at any turn; each member is written at most once, none from a failed guard on, and a turn whose guard failed or whose target changed leaves its row and all later ones not started |
| SnapshotTurns.TurnRefused | app/core/snapshot_sets.py:683-692 | A turn whose guard failed or whose target changed marks this row and every later one not started, sends nothing, ends the dispatch and leaves the rest of the operation as it was |
| SnapshotTurns.TurnTaken | app/core/snapshot_sets.py:694-717 | Any other turn commits the intent and writes; the row becomes accepted under its own task, or is left in doubt with the operation in review, as the reply alone decides |
| SnapshotTurns.StopsAt | app/core/snapshot_sets.py:683-692 | A dispatch that comes to a refused turn ends there: that row and all later ones are not started and were never written |
| SnapshotTurns.NothingFrom | app/core/snapshot_sets.py:683-719 | No member from a refused or unreached turn on is ever written |
| SnapshotTurns.SmoothDispatch | app/core/snapshot_sets.py:672-719 | A dispatch that nothing disturbs submits every remaining member in order, exactly once, and leaves each accepted under its own task |
| SnapshotTurns.StartsBefore | app/core/snapshot_sets.py:652-671 | A plan just started stands before its first member, bound to its target |
| SnapshotDispatch.SnapshotService.DispatchOne | app/core/snapshot_sets.py:672-719 | One turn takes exactly these steps: the others', the committed intent or the giving up, the others' again, the write if it leaves, and the committed answer or the death of the process |
| SnapshotDispatch.SnapshotService.ReconcileOperation | app/core/snapshot_sets.py:723-858 | The reconciler's loop and commit take the protocol's reconcile step; rows change only on evidence, every row looked at is concluded from it, the operation follows from its rows, and nothing is written |
| SnapshotReadback.RowsFollowEvidence | app/core/snapshot_sets.py:735-809 | A row turns failed only on a failed task, and succeeded only on a stopped task with an equal uuid and the planned snapshot present (create), no snapshot left (delete), or the reviewed snapshot current with the guest stopped (rollback); a running or unreadable task leaves its row as it was |
| SnapshotReadback.RunningTaskKeepsLock | app/core/snapshot_sets.py:762-763 | While a row's task is running or unreadable its operation stays active and its attempt keeps the deployment's lock |
| SnapshotReadback.OperationSettles | app/core/snapshot_sets.py:811-858 | An operation settles exactly when all its rows have, and then its set, attempt, deployment and lock follow from them |
| SnapshotReadback.CreateRecords | app/core/snapshot_sets.py:784-793 | When a create settles every member carries exactly what was read back for it |
| SnapshotPlans.StartsExactly | app/core/snapshot_sets.py:596-671 | A reviewed plan starts iff its own digest is given in time, its target, members and proofs are as reviewed, the guards hold, and nothing else works on the deployment |
| SnapshotPlans.StartMeans | app/core/snapshot_sets.py:652-671 | A start makes the operation running under a fresh attempt that holds the lock, stops the set's other plans, and changes nothing else |
| SnapshotPlans.ExpiredNeverStarts | app/core/snapshot_sets.py:616-621 | A plan whose time has passed is started in no continuation |
| SnapshotPlans.PlansExactly | app/core/snapshot_sets.py:332-374 | A rollback or delete is planned iff the set, its target, its guests and its proofs allow it, over exactly the guests that still have the snapshot |
| SnapshotPlans.CreatesExactly | app/core/snapshot_sets.py:280-322 | A create is planned exactly for one to sixty-four different guests without the snapshot on the registered host |
| SnapshotPlans.CancelsExactly | app/core/snapshot_sets.py:377-390 | A plan is cancelled exactly when it belongs to the set, still waits and was never attempted |
| SnapshotPlans.OrdinaryReserved | app/routes/v1/deployments/attempts.py:79-115 | An ordinary attempt is reserved exactly when the deployment is known, its current attempt has ended and nobody holds its lock |
| SnapshotPlans.FreshLockStays | app/core/locks.py:65-144 | Within three intervals of its heartbeat no step but the owner's own settling removes or hands over a lock |
| SnapshotDispatch.InspectRows | app/core/snapshot_sets.py:735-809 | The inspection loop computes row by row the outcome the saved task and the readback prove |
| SnapshotDispatch.NotStartedFrom | app/core/snapshot_sets.py:687-691 | Marking the rest in a loop equals abandoning every row from an index on |
| FirstFit.FillFits | app/core/allocation_reservations.py:167-195 | Every slot gets its wish verbatim, or the least number of its window that nothing used, no wish and no earlier slot holds |
| FirstFit.FillDistinct | app/core/allocation_reservations.py:133-164 | With distinct wishes reserved first nothing is handed out twice, and only wishes come from what was claimed before |
| FirstFit.FillExhausted | app/core/allocation_reservations.py:174-190 | When filling fails, some automatic slot's whole window is taken by then |
| FirstFit.ExhaustedFails | app/core/allocation_reservations.py:174-190 | Conversely an automatic slot whose whole window is taken at its turn makes filling fail |
| FirstFit.CheckRanges | app/core/allocation.py:19-27 | The range scan answers exactly whether the number lies in some range |
| VmAllocationSoundness.FixVmsEach | app/core/allocation_reservations.py:139-164 | After the first phase every machine's identifier and addresses are the manual or retained ones, admissible and its own |
| VmAllocationSoundness.FixVmsApart | app/core/allocation_reservations.py:143-164 | No two machines are pinned to one identifier or one bridge address |
| VmAllocationTheorems.PlanSound | app/core/allocation_reservations.py:115-196 | Every successful plan answers the request with manual values verbatim, hands out nothing twice, and avoids protected, unusable, reserved, gateway and foreign values |
| VmAllocationMeaning.PlanMeans | app/core/allocation_reservations.py:115-196 | Every assigned address differs from every gateway and reserved address of every network on its bridge, from what others hold there and from every other assigned address, is a usable address of its network's subnet, and carries its network's prefix; every identifier is in bounds, not protected and held by nobody |
| VmAllocationMeaning.PlanKeeps | app/core/allocation_reservations.py:139-164 | A machine without a manual identifier keeps its stored one, and an interface keeps its manual address or, on an unchanged network, the stored one |
| VmAllocationMeaning.RetainedMeans | app/core/allocation_reservations.py:80-112 | Which stored interface an interface keeps: by equal key, by index when nothing is keyed, by unambiguous place for rows stored without keys, or a request for identities |
| VmAllocationMeaning.IdsAreLeast | app/core/allocation_reservations.py:170-176 | An automatic identifier lies in its window, and every smaller one there is protected, held by others, manual or stored for a machine of the request, or assigned to an earlier machine |
| VmAllocationMeaning.AddressesAreLeast | app/core/allocation_reservations.py:177-190 | Every smaller host address of the interface's subnet is a gateway or reserved on its bridge, held by others, manual or stored for an interface of the request, or assigned to an earlier one |
| VmAllocationMeaning.ExhaustedMeans | app/core/allocation_reservations.py:170-190 | Exhaustion means that, for some machine and the rows before it, every identifier, or for one of its interfaces every address, of its window is barred, held or given |
| VmAllocationTheorems.PlanLeast | app/core/allocation_reservations.py:166-195 | Each automatic value is the least of its window not protected, not taken by others, not pinned by the request and not given to an earlier machine or interface |
| VmAllocationTheorems.PlanExhausted | app/core/allocation_reservations.py:170-190 | Exhaustion is reported only when, after the plan's own earlier rows, the next machine's whole identifier window or one of its interfaces' whole address window is taken |
| VmAllocationTheorems.StuckIsExhausted | app/core/allocation_reservations.py:170-190 | Conversely a plan whose own earlier rows leave the next machine without room reports exhaustion |
| VmAllocationRefusals.PlanRefused | app/core/allocation_reservations.py:139-164 | A refusal other than exhaustion names the first machine that, after what the machines before it were pinned to, has a pinned identifier or address that is protected, unusable or held, or interfaces that cannot be told apart |
| VmAllocationRefusals.RefusedIsErr | app/core/allocation_reservations.py:139-164 | Conversely a machine with one of these reasons is refused |
| VmAllocationRefusals.RefusedPlan | app/core/allocation_reservations.py:139-164 | And the whole plan is then refused, not for want of room |
| VmAllocationRenewal.RecognisedAt | app/core/allocation_reservations.py:80-94 | Every stored interface of an unchanged request is recognised again, by key when there are keys, by index otherwise |
| VmAllocationRenewal.RenewalFixedPoint | app/core/allocation_reservations.py:139-195 | Re-planning an unchanged request against its own rows returns exactly those rows iff they are disjoint from what others hold |
| VmAllocationPlan.Plan | app/core/allocation_reservations.py:115-196 | The planner's nested loops over growing sets and maps compute the planning function, errors included |
| VmAllocationPlan.PinVms | app/core/allocation_reservations.py:135-164 | The first loop computes the pinned values and stops at the first conflict with its error |
| VmAllocationPlan.AdoptUnkeyed | app/core/allocation_reservations.py:96-112 | The adoption loop for rows stored without keys computes the unambiguous matches or asks for identities |
| VmAllocationPlan.PlaceVms | app/core/allocation_reservations.py:166-196 | The second loop computes the assignments or reports exhaustion |
| VmAllocationPlan.FillSlots | app/core/allocation_reservations.py:177-191 | The inner scan fills the interfaces in index order and keeps the running set of claims |
| VmAllocationPlan.Collect | app/core/allocation_reservations.py:120-131 | The unavailable sets are occupancy, every other row, reserved addresses and gateways |
| LegacyScan.AllocateVmids | app/core/allocation.py:30-45 | The scan returns the first free identifiers of its range, or fails when there are too few |
| LegacyScan.FirstsUnique | app/core/allocation.py:37-45 | The scan's answer is the one increasing sequence of free identifiers that passes over nothing free |
| LegacyScan.PlanAgreesWithScan | app/core/allocation_reservations.py:170-176 | Within common bounds an all-automatic request gets the identifiers of the older scan |
| LedgerSafety.ReserveKeeps | app/core/allocation_reservations.py:217-246 | A reserve transaction keeps all live leases and claims disjoint, exclusive and uniquely keyed |
| LedgerSafety.BindKeeps | app/core/deployment_allocations.py:75-115 | A binding keeps all live leases and claims disjoint, exclusive and uniquely keyed |
| LedgerSafety.RunDisjoint | app/core/allocation_reservations.py:216-247 | In every run of authors, deployments, operators and time, unexpired leases and claims share no identifier and no bridge address |
| LedgerSafety.NoDuplicatesIsExclusive | app/core/deployment_allocations.py:50-52 | The manifest's counting check holds iff no identifier and no bridge address repeats |
| LedgerTheorems.ExpiredStaysExpired | app/core/allocation_reservations.py:221-226 | A lease that expired or was removed is live in no continuation of any run |
| LedgerTheorems.LeaseLasts | app/core/allocation_reservations.py:54-56 | Until it expires a lease stays exactly as it is, whatever other authors do |
| LedgerTheorems.ClaimLasts | app/core/allocation_models.py:25-37 | A committed claim outlives everything but its own release |
| LedgerTheorems.BindTransfers | app/core/deployment_allocations.py:85-115 | A first binding with a draft either changes nothing or turns exactly that live lease into the claim |
| LedgerTheorems.TransferConserves | app/core/deployment_allocations.py:58-65 | A transfer leaves the owned identifiers and addresses exactly as they were, and the lease is no longer live |
| LedgerTheorems.RenewalKeepsRows | app/core/allocation_reservations.py:222-246 | Renewing an unchanged request for a live lease keeps every row, whatever others committed, unless the audit finds one in use |
| LedgerService.Reserve | app/core/allocation_reservations.py:199-257 | The retry loop ends within the probe bound, probes no identifier twice, and saves only a plan of the ledger of the same transaction with every identifier answered free in this call; the saved lease is in the ledger with its project, owner and host, expires its own seconds after the transaction's clock and so is live, and nothing else is written |
| LedgerAnswers.ReserveDecides | app/core/allocation_reservations.py:216-247 | One transaction refuses a live lease of another owner or host, a changed node or registration, or a thousand and first lease, passes on a planning error, names what is still to be probed, or saves, each exactly in its case and planning against exactly the rows of other unexpired leases and of claims; the saved lease and all else written are given field by field |
| LedgerAnswers.NobodyShares | app/core/allocation_reservations.py:216-247 | In every run no two of the unexpired leases and claims share an identifier or an address on one bridge, said over their rows |
| LedgerAnswers.ShareExactly | app/core/deployment_allocations.py:101-108 | Two allocations conflict iff some two of their rows have an identifier, or an address on one bridge, in common |
| LedgerService.PendingIsNew | app/core/allocation_reservations.py:236-256 | What a transaction leaves to be probed was neither confirmed free nor found busy before |
| LedgerService.Probe | app/core/allocation_reservations.py:250-256 | One probing round asks once about each pending identifier and records each answer |
| LedgerService.Database.Bind | app/core/deployment_allocations.py:75-115 | A binding is accepted iff it may be made, said over the stored fields, and then the deployment holds a claim on exactly these rows on its own target and revision; a refused one changes nothing |
| LedgerAnswers.BindExactly | app/core/deployment_allocations.py:75-115 | An existing claim is confirmed iff its rows, host, API URL, node and revision are those given; a first binding is made iff the rows repeat nothing, nobody else holds any, and the draft, if any, is the deployment's own live lease with these rows |
| LedgerAnswers.BoundHasClaim | app/core/deployment_allocations.py:75-115 | After an accepted binding the deployment has a claim on exactly these rows at its revision and registered target |
| LedgerAnswers.UnbindExactly | app/routes/v1/deployments/allocations.py:25-83 | A claim is released iff all of its deployment is idle and gone and it still has its deployment's target and revision, and nothing else goes with it |
| LedgerService.Database.FindConflict | app/core/deployment_allocations.py:101-108 | The loop finds a conflict iff some claim or other unexpired lease overlaps |
| LedgerService.Database.Release | app/core/allocation_reservations.py:264-276 | Releasing by identifier checks ownership and removes exactly that lease |
| EventLog.RunOrdered | app/core/events.py:30-79 | Across any observers, restarts and crashes, torn tails included, readable sequence numbers strictly increase and no raw event has two readable records in an attempt |
| EventLog.FinishedLine | app/core/events.py:30-45 | A finished line is a record or a sentinel only when it is exactly that, and unreadable otherwise |
| EventLog.EntryKeeps | app/core/events.py:68-79 | An append keeps order and uniqueness for every prefix a later crash may leave |
| EventReaders.RecoverSeq | app/core/events.py:30-45 | Recovery returns the greatest readable sequence number |
| EventReaders.ReadRange | app/core/events.py:96-115 | The reading loop returns the readable records from the start of the range up to its early stop |
| EventReaders.StopIsFilter | app/core/events.py:110-115 | On increasing records the early stop equals the plain range filter |
| EventReaders.RangeExactly | app/core/events.py:96-115 | On an ordered log a range read returns exactly the readable records with a number in the range, in order |
| EventReaders.TailEvents | app/core/events.py:127-182 | The tail drains each sight of the file from behind the last record it yielded |
| EventReaders.TailNeverRepeats | app/core/events.py:140-182 | Whatever it sees, a tail yields strictly increasing sequence numbers from its start on |
| EventReaders.TailComplete | app/core/events.py:140-182 | While readable records only grow, a tail has yielded exactly those at or above its start |
| EventReaders.OnlyAfterExactly | app/core/events.py:121-182 | Then only records after the start are yielded iff no readable record has the start as its number |
| EventReaders.StartIsYielded | app/core/events.py:121-182 | A tail of a one-record log from that record's number yields it |
| EventPipeline.ReadEntries | app/core/events.py:73-78 | On a clean tail every appended record is readable; a torn tail swallows exactly the first |
| EventPipeline.Watcher.constructor | app/core/events_watcher.py:95-117 | A watcher starts with the log's greatest number, with a cursor that is its own attempt's greatest number, and with its attempt's receipts |
| EventPipeline.Watcher.Scan | app/core/events_watcher.py:126-149 | A scan appends each parsable listed file not seen before, once, with consecutive numbers, and nothing else |
| EventPipeline.Watcher.Run | app/core/events_watcher.py:120-161 | When the watcher returns it has seen every parsable file that was there when the stop was observed, or earlier, under any arrivals, and appended only listed parsable files; a cursor that moved is the last report, and reported cursors increase |
| EventPipeline.SeenIsRecorded | app/core/events_watcher.py:120-150 | Everything seen has exactly one readable record iff the tail was clean or nothing was appended |
| EventPipeline.ObserveAttempt | app/core/events_watcher.py:95-161 | From construction to return, on a clean tail, every parsable raw file present when the stop was seen has exactly one readable record, under any arrivals; once the files have settled this holds iff the tail was clean or every such file had a receipt |
| EventPipeline.CrashLosesRecord | app/core/events.py:73-78 | A crash right after a body leaves a log on which the next record, and the one before it, are unreadable |
| EventPipeline.CleanupOutput | app/core/attempt_cleanup.py:41-64 | Cleanup deletes exactly the regular JSON files with a readable receipt, nothing when a line is unreadable, and the output only when nothing is retained |
| EventPipeline.ReadReceipts | app/core/attempt_cleanup.py:41-51 | The receipts are those of the attempt's readable records, refused iff some line parses as no value |
| EventPipeline.ReceiptSurvives | app/core/attempt_cleanup.py:45-60 | A receipt survives every later append, restart and crash iff it stands on a finished line |
| EventPipeline.CleanedReceiptIsLost | app/core/attempt_cleanup.py:45-60 | On a log reached by a crash the cleanup accepts a receipt that one later append makes unreadable |
| LifecycleTheorems.RunMoves | app/core/attempt_lifecycle.py:76-124 | Over any run an ended attempt keeps its state, a known return code never changes, and the cursor never falls |
| LifecycleTheorems.CancelWins | app/core/attempt_lifecycle.py:94-102 | A cancellation recorded before the end is the only end possible, and the attempt is never marked running again |
| LifecycleTheorems.SucceedsExactly | app/core/attempt_lifecycle.py:91-102 | Over any run an open attempt ends succeeded, cancelled or failed iff its first completion, by a callback or a recovery pass, says so and, for cancelled, also when a cancellation was recorded by then |
| LifecycleTheorems.FinishReleasesOwn | app/core/attempt_lifecycle.py:117-122 | Completion releases only the attempt's own lock and touches no other deployment |
| LifecycleTheorems.FinishTwice | app/core/attempt_lifecycle.py:85-88 | A repeated completion with the same result changes nothing |
| LifecycleTheorems.LiveRunnerKeepsLock | app/core/locks.py:73-189 | The lock of a verified live runner stays with it through every step but its own completion, recovery on an older row included |
| LifecycleTheorems.MatchIsOwn | app/core/locks.py:73-105 | In every run a process that matches an attempt was started as that attempt's own runner |
| LifecycleTheorems.RunnerStaysGone | app/core/orphans.py:232-245 | Once a runner is gone no later process is taken for it, whatever PIDs are used again |
| LifecycleMeaning.FreshLockStays | app/core/locks.py:65-144 | Within three intervals of its heartbeat nobody else takes, sweeps or gives back a lock |
| LifecycleMeaning.AcquireExactly | app/core/locks.py:108-144 | A lock is taken iff it is free, or more than three intervals old and without its own live runner; a refusal changes nothing |
| LifecycleMeaning.CleanupExactly | app/core/locks.py:179-189 | A sweep removes exactly the locks that anybody may take and leaves every other as it was |
| LifecycleMeaning.HeartbeatExactly | app/core/locks.py:163-176 | A heartbeat renews the lock for its holder and for nobody else |
| LifecycleMeaning.ReserveExactly | app/routes/v1/deployments/attempts.py:79-115 | A new attempt is reserved exactly for a known deployment whose current attempt has ended and whose lock nobody holds, and then is the current one and pending |
| LifecycleMeaning.MarkExactly | app/core/attempt_lifecycle.py:51-73 | A start is recorded exactly for an attempt that has neither ended nor been cancelled |
| LifecycleMeaning.FinishedExactly | app/core/attempt_lifecycle.py:76-124 | What a completion makes of state, code, reason and cursor: an end and a code are never rewritten, a cancellation wins, the cursor never falls |
| LifecycleMeaning.RecoverExactly | app/core/orphans.py:183-262 | One turn of a pass: nothing for a tracked or too young attempt, a lock for a live runner without one, and for any other the end that its exit code tells |
| LifecycleService.AttemptStore.MarkAttemptRunning | app/core/attempt_lifecycle.py:51-73 | Marking succeeds only for an attempt that has not ended and is not cancelled, and otherwise changes nothing |
| LifecycleService.AttemptStore.FinishAttempt | app/core/attempt_lifecycle.py:76-124 | The guarded updates equal the completion step, and the attempt moves only forward |
| LifecycleService.AttemptStore.AcquireLock | app/core/locks.py:108-144 | The lock is taken only when free, or stale without a live runner |
| LifecycleService.AttemptStore.CleanupStaleLocks | app/core/locks.py:179-189 | Cleanup removes exactly the stale locks without a live runner and counts them |
| LifecycleService.AttemptStore.ReconcileOnce | app/core/orphans.py:183-262 | A pass acts turn by turn on the rows it read when it began, with anything others do between its turns, and is a run of lifecycle steps |
| LifecycleService.PassMoves | app/core/orphans.py:183-261 | From any turn of a pass to any later one attempts only move forward, so an end or a return code that others set meanwhile is kept |
| LifecycleService.TurnKeepsLock | app/core/orphans.py:232-245 | However old its row, a turn of a pass takes no lock from a verified live runner |
| Maintenance.RunKeeps | app/core/maintenance_guard.py:111-143 | In every run an exclusive hold excludes all admitted requests, the writer belongs to at most one guard, and a body implies an idle database |
| Maintenance.BodyHolds | app/core/maintenance_guard.py:116-138 | Throughout the body of a hold nothing is admitted, nothing unfinished, no attempt open, no workspace lock or provisioning lock held by another, and the audited database facts do not change |
| Maintenance.BodyWasAudited | app/core/maintenance_guard.py:111-138 | Whoever is in its body entered it by an audit that found no open attempt, no workspace lock and every runner directory quiet, on the very database that still stands |
| Maintenance.GuardMoves | app/core/maintenance_guard.py:111-143 | A guard gets on only by its own calls, and only as the open locks, the intent, the database and the files allow |
| Maintenance.GuardEnds | app/core/maintenance_guard.py:111-143 | A guard ends by a crash, by a refusal before it holds more than the gate, or after giving the other two locks back, and then holds nothing |
| Maintenance.TaskOwnsGate | app/core/maintenance.py:78-127 | Through every run without its own release or a crash of the API, an admitted request keeps its descriptor, excludes the exclusive lock, keeps every guard at its opening, and is ended by no cancellation of its caller, which stops at the shield |
| Maintenance.IntentFailsClosed | app/core/maintenance.py:67-76 | Until a non-empty intent is cleared no request starts to work and no guard passes its check, across crashes |
| Maintenance.Gate.Drain | app/core/maintenance.py:91-96 | Draining ends at the first round after which nothing is tracked, and has waited for every request tracked meanwhile |
| Maintenance.RoundsCover | app/core/maintenance.py:91-96 | After any number of rounds, ended or not, every request tracked so far was waited for or is still tracked |
| Maintenance.AssertIdle | app/core/maintenance_guard.py:48-108 | The audit accepts iff no attempt is open, no workspace lock is held, and every runner directory is known to be quiet |
| Maintenance.QuietExactly | app/core/maintenance_guard.py:82-108 | A runner directory is quiet iff its PID and identity files agree and either it is a recorded attempt that never started, or its identity is readable and its process gone, another, or of another boot |
| CatalogCache.FreshInOrder | app/core/catalog_snapshots.py:55-62 | Expiry takes out the expired entries and keeps the order of the others |
| CatalogCache.EvictedIsSuffix | app/core/catalog_snapshots.py:84-85 | Eviction drops a shortest sufficient run of the oldest entries |
| CatalogCache.EvictedKeepsLast | app/core/catalog_snapshots.py:82-85 | With room for one entry the one just inserted is never evicted |
| CatalogCache.CatalogSnapshots.Get | app/core/catalog_snapshots.py:55-70 | A read serves only unexpired data whose load began after the last invalidation, or shares the one load of its generation and key |
| CatalogCache.CatalogSnapshots.FinishLoad | app/core/catalog_snapshots.py:77-86 | A load fills the cache only in its own generation and within size, and both limits hold afterwards |
| CatalogCache.CatalogSnapshots.Invalidate | app/core/catalog_snapshots.py:49-53 | After an invalidation nothing older is cached and running loads can no longer fill the cache |
| TaintedStrings.ReplaceCreatesNothing | app/core/redaction.py:201-212 | Replacing a needle leaves none of it and creates no occurrence of another one, for needles no marker can complete |
| TaintedStrings.OneGone | app/core/redaction.py:168-212 | A needle no marker can complete is gone after all replacements, whatever the others are and in any order |
| TaintedStrings.NoneLeft | app/core/redaction.py:168-212 | After all replacements no safe needle is left in the string |
| TaintedStrings.GuaranteeExactly | app/core/redaction.py:168-176 | For a fixed list, longest first, without partial overlaps with the marker, the promise holds for every string iff no needle is part of the marker |
| TaintedSecrets.SecretHiddenExactly | app/core/redaction.py:168-212 | A secret and its escaped forms are gone from every text, whatever the other secrets, iff no marker can complete the secret |
| TaintedSecrets.EscapeStaysSafe | app/core/redaction.py:172-175 | Escaping a secret never makes it completable by a marker |
| TaintedSecrets.NeedlesSafe | app/core/redaction.py:172-176 | Secrets no marker can complete give safe needles, escaped forms included |
| TaintedSecrets.CompletedLeaks | app/core/redaction.py:201-212 | For every secret a marker can complete there are another secret and a text in which it is left |
| TaintedEvents.RedactedIsClean | app/core/redaction.py:186-199 | No string value at any depth of a redacted event contains a needle that no marker can complete |
| TaintedEvents.CleanPasses | app/core/redaction.py:186-212 | A clean event passes unchanged and fires nothing |
| TaintedEvents.TaintedLayer.constructor | app/core/redaction.py:168-176 | The needles are the non-empty secrets and their escaped forms, each once, longest first |
| TaintedEvents.TaintedLayer.Redact | app/core/redaction.py:178-184 | The walk rewrites every string and records what fired; needles no marker can complete are gone, and when all are such a second pass is the identity |
| TaintedEvents.BracketsMayLeak | app/core/redaction.py:201-212 | Two needles, one with a bracket, for which the promise fails |
| TaintedMeaning.ReplaceExactly | app/core/redaction.py:201-212 | A text is cut at the needle from the left without overlaps; every cut becomes the marker and the pieces stay |
| TaintedMeaning.NeedlesExactly | app/core/redaction.py:168-176 | The needles are exactly the non-empty secrets and their two escaped forms |
| TaintedMeaning.EscapeReads | app/core/redaction.py:172-175 | An escaped form, read as the body of a JSON string, gives the secret back, surrogate pairs included |
| TaintedMeaning.EscapeForm | app/core/redaction.py:172-175 | The ASCII form is printable ASCII; the other form escapes only what JSON requires |
| TaintedMeaning.MarksExactly | app/core/redaction.py:201-212 | A text is recorded once for every needle found in its turn, so at all iff it holds a needle |
| TaintedMeaning.MarkedExactly | app/core/redaction.py:186-199 | The recorded paths are exactly those of the texts that hold a needle |
| RedactionPipeline.WalkDenied | app/core/redaction.py:99-126 | The denylist walk replaces exactly the scalars under denied keys and the hidden values, and records each |
| RedactionPipeline.DeniedAlike | app/core/redaction.py:99-126 | Events that differ only in scalars under denied keys and in hidden values are redacted alike, with the same records |
| RedactionPipeline.DeniedExactly | app/core/redaction.py:86-123 | Everything under a denied key is replaced, at every depth, iff denied keys hold only scalars, hidden values apart |
| RedactionPipeline.DeniedListPasses | app/core/redaction.py:114-123 | A list of scalars under a denied key passes unchanged |
| RedactionMeaning.DenyExactly | app/core/redaction.py:99-126 | A hidden value and a scalar under a denied key become the fixed string, containers are walked whatever their key, and all else is left as it is |
| RedactionMeaning.DenialsExactly | app/core/redaction.py:99-126 | The records are exactly one for each hidden value and one for each denied scalar or hidden member, with its rule and path |
| RedactionMeaning.AlikeExactly | app/core/redaction.py:99-126 | Two events look the same to the denylist, in what it publishes and in what it records, iff they differ only in scalars under denied keys and in hidden values |
| RedactionMeaning.DenialsOnce | app/core/redaction.py:99-126 | No record is made twice |
| RedactionPipeline.RunPipeline | app/core/redaction.py:60-82 | The layers run in order without stopping and every record of every layer is audited with its rule and path |
| RedactionPipeline.PipelineEndsClean | app/core/redaction.py:60-82 | With known-string redaction last, no needle that a marker cannot complete is left, whatever the layers before |
| RedactionPipeline.PipelineHidesDenied | app/core/redaction.py:60-126 | With the denylist first, neither the event nor the audit depends on denied values |
| TaintedMeaning.AuditExactly | app/core/redaction.py:60-82 | The audit holds exactly the records that each layer makes for the event it is given, under the layer's number |
| SecretMarkers.Rewrite | app/overlay/resolve_secrets.py:21-36 | The rewriting loop settles an object's members, or reports the first unknown name |
| SecretMarkers.ResolveTree | app/overlay/resolve_secrets.py:21-47 | The walk with its loops computes the resolved document or the first error in walk order |
| SecretMeaning.SettledExactly | app/overlay/resolve_secrets.py:21-36 | A member of the resolved object is a secret exactly where a request asks for it, and a kept member exactly where none does; requests are gone, nothing stands twice, and the document's order is kept |
| SecretMeaning.ResolveExactly | app/overlay/resolve_secrets.py:21-47 | Resolution succeeds iff every name that is looked up at any depth is known, and then yields exactly the resolved document; otherwise it reports an unknown name that is looked up |
| SecretMeaning.MissingExactly | app/overlay/resolve_secrets.py:26-33 | An object reports the first of its requests whose name is unknown |
| SecretMeaning.FirstItem | app/overlay/resolve_secrets.py:39-41 | A list reports what its first unresolvable item reports |
| SecretMeaning.ResolvedHoldsNone | app/overlay/resolve_secrets.py:34-41 | No request is left at any depth of a resolved document |
| SecretMarkers.WalkMarked | app/core/redaction.py:226-252 | The walk replaces exactly the marked and inline values below its root and records each |
| RedactionMeaning.CleanExactly | app/core/redaction.py:226-252 | Below the root a tagged value or inline vault text becomes the fixed string, and all else keeps its shape, keys and values; a tagged root is left as it is |
| RedactionMeaning.CleansHoldsNone | app/core/redaction.py:226-252 | What comes out of the layer holds nothing tagged and no inline vault text at any depth, unless its root is tagged |
| RedactionMeaning.FiredExactly | app/core/redaction.py:226-252 | A rule fires at a path iff the path leads, through nothing replaced itself, to a value of that kind |
| RedactionMeaning.FiredOnce | app/core/redaction.py:226-252 | No rule fires twice for one path |
| SecretIndependence.ResolvedSame | app/overlay/resolve_secrets.py:21-47 | Resolving with two lookups of the same names gives equal errors, or documents equal but inside marked values |
| SecretIndependence.SameClean | app/core/redaction.py:230-252 | Redaction sees no difference between documents equal but inside marked values |
| SecretIndependence.PublishedIndependent | app/core/redaction.py:218-252 | What is published is the same for all lookups of the same names iff the document's root is unmarked, or a reference replaces its mark, or no secret is resolved |
| SecretIndependence.UnmarkedIndependent | app/core/redaction.py:218-252 | A document with an unmarked root is published alike, refusals and fired rules included, for all lookups of the same names |
| SecretIndependence.ResolvedMarked | app/overlay/resolve_secrets.py:21-38 | The resolved root is marked iff the document's root is and no reference targets the mark |
| SecretIndependence.MarkedRootLeaks | app/core/redaction.py:226-252 | A marked root with one reference is published differently for two passwords |
| SecretIndependence.FreshMarkerStays | app/overlay/resolve_secrets.py:37-38 | Walking a value that was just resolved changes nothing |
| HardwareStrings.ParseParts | app/core/proxmox_hardware.py:13-27 | The parsing loop computes the entries in order, or the error of the first bad item |
| HardwareStrings.PartsExactly | app/core/proxmox_hardware.py:13-27 | A string is accepted exactly as the entries its items read as, and refused as unsupported when it is not plain text or an item after the first has no equals sign before any other fault |
| HardwareStrings.PartsShape | app/core/proxmox_hardware.py:17-27 | Accepted entries have clean unique keys and values, one per item of the string |
| HardwareStrings.RoundTrip | app/core/proxmox_hardware.py:13-61 | Parsing a printed map gives the map back iff the map is printable |
| HardwarePatch.PatchNic | app/core/proxmox_hardware.py:54-61 | The patching loop sets and removes the listed settings and prints the rest in place |
| HardwarePatch.PatchNothing | app/core/proxmox_hardware.py:54-61 | An empty patch returns the same string iff no item is literally keyed _first |
| HardwarePatch.LiteralFirstIsLost | app/core/proxmox_hardware.py:54-61 | The accepted string _first=x comes back as x |
| HardwarePatch.PatchOverlay | app/core/proxmox_hardware.py:54-61 | A well-formed patch parses back to the overlaid map iff the result is non-empty and within size; unlisted settings keep value and place |
| ScenarioValidator.Validate | app/core/scenario_instances.py:138-194 | The checks, loops and remembered links accept exactly the documents that satisfy the declarative agreement |
| ScenarioMeaning.AcceptedExactly | app/core/scenario_instances.py:138-194 | The agreement is equivalent to its plain reading: roster and scopes, identities spread exactly over them, digest keys, manifest and machines in bijection, disjoint networks equal to the network manifest, every interface on a network of its own cohort, and replicas linked alike |
| ScenarioValidator.CheckIdentities | app/core/scenario_instances.py:77-90 | The roster loop and the comparison accept iff the rows are exactly the expansion, without empty cohorts and within the limit |
| ScenarioValidator.CheckInstances | app/core/scenario_instances.py:172-194 | The interface pass accepts iff every instance fits its machine and networks and replicas have equal links |
| ScenarioTheorems.ReplicationIsExact | app/core/scenario_instances.py:77-95 | Instances and networks are in bijection with the roster expansion: one each, as many as shared + per team + per user, keys distinct |
| ScenarioTheorems.AddressesUnique | app/core/scenario_instances.py:155-191 | No two interfaces of an accepted scenario share an address, not even on different bridges |
| ScenarioTheorems.CohortsIsolated | app/core/scenario_instances.py:180-187 | Two machines on one bridge belong to that network's team and user unless it has none |
| ScenarioValidator.Visit | app/core/scenario_instances.py:98-116 | Visiting a group collects its hosts once each, or refuses a repeated name, excess depth or excess hosts |
| ScenarioValidator.ValidateInventory | app/core/scenario_instances.py:119-135 | The inventory check accepts iff guests and hosts are exactly the machines with their addresses and users |
| InventoryMeaning.BindsExactly | app/core/scenario_instances.py:98-135 | Acceptance is equivalent to its plain reading: no group below more than sixteen others, no name twice, at most two more hosts than machines, the guests are the machines with their addresses and users, and every other name is a control host |
| InventoryMeaning.HostsExactly | app/core/scenario_instances.py:98-116 | The hosts collected from a group are exactly those defined in it or in any group below it |
| ScenarioValidator.InventoryBindsMachines | app/core/scenario_instances.py:98-131 | Every machine has exactly one definition in the whole inventory, and nothing else is defined but the control hosts |

## Left out

- Two installations that share neither database nor provisioning lock: outside the snapshot protocol and its model.
- Row codes, dispatch times and the attempt's stored result text carry no decision and are not modelled.
- cancel_plan takes no provisioning lock; in the model it interleaves freely with every other step.
- A set or operation that reconciliation never settles because its target binding changed stays as it is; moving it on by hand is outside.
- LedgerService.Reserve: the thirty-second time limit and a busy database end the call without a write and are not modelled; the order of probe answers inside a round is the order of the plan.
- LedgerModel.ReleaseClaim: attempts, locks and guests that must be gone are one answer given from outside.
- Subnet and address spelling: addresses are numbers, so two spellings of one address cannot occur.
- VmAllocationRenewal.RenewalFixedPoint: rows stored without keys that are adopted under new keys are planned by the model, but the fixed point is stated for rows matched by index or key.
- EventLog.RunOrdered: one writer at a time; two concurrent writers on one file are not modelled.
- The watcher's sort of file names, its translation of raw events and the truncation of log lines do not affect receipts and are left to the listing given from outside.
- In-place rewriting of the event and document trees is modelled on values: walks return the rewritten tree, so aliasing between parts of a document is not captured.
- The save-time and content-regex layers are stubs; the denylist's key patterns are one yes-or-no answer per key, and audit rows carry layer, rule and path only.
- Deployments, sets and operations are never deleted by the repository's code, so no step deletes them.
- Snapshot-set attempts inside the lifecycle model: their liveness is the subject of the snapshot modules.
- The maintenance lock's path, owner and inode checks, and the proof of the API's process identity.
- TaintedStrings.GuaranteeExactly: one fixed list with a needle that overlaps the marker in part may still be harmless (TaintedSecrets.LoopIsHarmless); for such needles the exact statement is the one over all companions, TaintedSecrets.SecretHiddenExactly.
- Maintenance.Gate.Drain: ending needs a round after which nothing is tracked, without which the waiting goes on for ever; Maintenance.RoundsCover holds without it.
- CatalogCache.CatalogSnapshots.Get: deep copies and the limit on concurrent loads are not modelled.
- HTTP routes, schemas, authentication, TLS, Git checkout, Ansible and runner spawning, WebSockets, settings, migrations, capacity advisories.
- nic_view, disk_view and hardware_values: field-by-field readings of a parsed string.
