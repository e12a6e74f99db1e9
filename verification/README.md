# tf_tree: a verification model

This project models the parts of tf_tree whose correctness rests on an argument rather than on a type: the
cross-process protocols over the shared arena and its lock file, the frozen `.tft` file, the arena's layout
arithmetic, the per-thread plan cache, the CBOR manifest, the compact plan encoding, the builder and the
clock-offset sampler. Everything below is stated over all inputs, all runs or all byte prefixes.

## How it is laid out

| component | files |
|---|---|
| participant slots: grant, register, reclaim, hang up | `Participants`, `ParticipantSafety`, `ParticipantGrants`, `ParticipantHandover`, `ParticipantRuns`, `HandoverRuns`, `ParticipantAttach`, `Assigner`, `AssignerSteps` |
| edge claims and their leases | `Claims`, `ClaimLeases`, `ClaimWords`, `ClaimThreats`, `ClaimSiblings`, `ClaimPushes`, `ClaimCalls`, `ClaimRuns`, `ClaimRevocations`, `ClaimReaper`, `ClaimReaperSteps` |
| topology mutation | `TopologyLock`, `TopologyCalls`, `TopologyRuns` |
| the owner role | `OwnerMigration`, `OwnerAnswers`, `OwnerConservation`, `OwnerMigrationRuns` |
| the frozen file | `Bytes`, `FrozenFormat`, `FrozenChecks`, `FrozenCrash`, `FrozenFiles`, `Freeze` |
| arena layout, header, validator, builder | `Layout`, `LayoutWraps`, `ArenaHeaders`, `ArenaImages`, `Builder` |
| plan cache | `PlanCache`, `CacheScopes` |
| CBOR and the manifest | `Cbor`, `Manifest` |
| compact plans, offset sampler | `CompactPlan`, `OffsetSampler` |

A protocol is a state, a `Step` datatype, `Enabled` and `Apply`; a run is a list of steps and `Exec` plays it.
All choice (who moves, what the kernel answers, who dies) is in the step, so a statement about every list of
steps is a statement about every interleaving with any number of processes and threads. Each step is one
atomic action, and the steps are sequentially consistent. Dying is a step that may come between any two
others; the kernel returns a dead process's locks and sockets in later steps. In the `Runs` files single
runs are given step by step, to show where a property stops.

Code that works in place is written as classes and methods with loops, each proved against a function of its
inputs or of the old state. The kernel's answers to a file's system calls are two lists, one for transfers and one
for the calls that only succeed or fail; when a list is used up, the process dies inside the call, so a method
that has returned "died" has covered a crash at that point. Each such method also says how many answers it needs:
with that many to come it does not die.

Where an operation is both a loop or call of its own and a part of a protocol, its steps played without interruption
are shown to come to what the loop or call comes to, from every state.

`{:induction false}` stands on every lemma: each proof does its own induction and none is left to a heuristic.

## What was found

- **Hangup and a second owner.** The hangup callback is a load and a CAS with no probe of the byte. With one
  serving thread it frees only the record of the client whose socket closed
  (`OneServerHangupFreesTheClientsRecord`). An heir starts with no grants, so two serving processes, one after
  the other, can grant one slot twice, and a hangup then erases a live record (`TwoServersEraseALiveRecord`). The
  condition is one of the hand-over: if each heir begins to serve while no living process is between its grant and
  its byte, and second probes are answered, every running process keeps its record under any number of
  successive servers (`SuccessorsKeepEveryRunningRecord`), and an heir that begins while one is can come to erase
  its record (`HandoverIsSafeExactlyWhenSettled`). An unanswered second probe counts as a free byte and breaks
  this by itself (`AnUnansweredProbeErasesALiveRecord`). No two living processes ever share a slot even then
  (`OneLivingParticipantPerSlot`).
- **The epoch re-check does not protect a claim from a reap.** The comment in `reap_claims` says that the re-check
  in `claim` protects a live claimer. The re-check sees every draw since the claim's own
  (`OkExactlyWhenNoDraw`), but a draw can still come after it. A reaper of another tree that probes before the
  lease is taken and draws after the re-check revokes a living writer that holds its lease
  (`AnEarlyProbeRevokesALiveWriter`), and so does another tree's claimer that swapped first, had its swap reaped, and
  draws late (`ASlowClaimerRevokesALiveWriter`). With one attempt a tree, a living writer of the current epoch whom
  the record names keeps both, in every run that it lives through without dropping, exactly when at that moment no
  other living thread has swapped without storing, is past a probe that read free, or is a reaper of its own tree
  that has loaded the word (`SafeExactlyWhenUnthreatened`); whoever first harms it was such a thread then
  (`TheFirstHarmIsAThreats`).
- **A claim can be returned with an empty record, or somebody else's.** A reaper or a slower claimer that drew
  its epoch before the claim's own draw is not seen by the re-check, and has its unconditional store of the owner
  word still to make: `claim` returns `Ok` and the word is gone (`OkWithAnEmptyRecord`). The record names the claim at
  its `Ok` exactly when no such thread is under way as the claim stores its word (`OkFindsTheWordExactlyWhen`).
  With the record empty, the next claim by another tree gets past it, is refused the lease, and has revoked the
  living writer (`ARefusedClaimRevokesALiveWriter`).
- **A tree's own reaper does not see the tree's lease.** Exclusion by epoch holds always (`OneCurrentWriter`). When
  each tree makes one attempt at a time, the lease stops every reap by another tree that loads the word after a living
  writer's `Ok` (`AReapThatLoadsLaterIsItsOwn`). A thread of the writer's own tree probes on the description that
  holds the lease, so all that stops its reap is the slot in the owner word; once a slower claimer has overwritten that
  word, it revokes the living writer (`AnOwnReaperRevokesALiveWriter`). Of the reaps that begin after a claim's
  `Ok` and run through, these and no others get to their draw (`ALaterReapRevokesExactlyWhen`).
- **Two threads of one tree share a description.** Over any run, a writer's lease is lost exactly to a sibling
  thread's unlock (`LeaseLostExactlyToASibling`, `ASiblingsDropExposesALiveWriter`). Two processes have a living
  writer of one edge at once only after such an unlock (`TwoWritingTreesNeedACut`), which may even come before the
  `Ok` of the claim that loses its lease (`TheCutMayPrecedeTheOk`).
- **A slot that is granted again keeps a dead mutator's word.** The topology word names a slot, not an
  incarnation. If its slot has been granted anew, the holder is taken for alive (or for the caller itself) and the word is
  not stolen (`AReusedSlotIsNotStolen`). A byte holder takes a dead thread's word exactly when it names another slot whose
  participant reads as gone (`AByteHolderTakesExactlyWhen`; `TopoLock.Acquire` for one call).
- **Two `inherit_ownership` calls on one tree.** The second can find the cell empty and later put that back
  over the first one's server (`TwoCallsLoseTheSession`). That is the only way a put-back drops anything
  (`PutDropsExactlyWhen`), and nothing is ever lost without being dropped (`NothingIsLost`); with one call in
  flight every exit puts back the attachment it took. Byte 0 it gives back too, but for one exit: the release of
  it after a failed bind has its own result dropped, and if that fails the tree goes on holding byte 0 without
  serving (`EveryExitPutsItBack`).
- **A `.tft` is committed before its provenance is.** A file that was stopped in its header opens exactly when the
  arena's size in it reads whole (`CommittedExactlyWhen`), at byte 44 or before for any arena below 4 GiB
  (`SizeIsWholeBy`). It shows the right image and manifest, and up to 80 provenance bytes may be torn.
- **A layout of more than 2^64 bytes can be accepted.** The sums are plain 64-bit ones. In a release build the limit is
  compared with the true total modulo 2^64 (`Accepts64`), and a list of 2^27 edges whose total is a little above 2^64
  passes (`AWrappedTotalFits`). Below 2^25 edges nothing wraps (`NoWrap`).
- **`Capacity::slots` past 2^31.** It promises at least `n` slots rounded up; above 2^31 it gives 2^31, which
  is fewer than `n` (`NextPow2U32`).

## Main results

- participants: `OneServerKeepsEveryRunningRecord`, `ReclaimSparesTheLiving`, `HandoverIsSafeExactlyWhenSettled`,
  `NoGrantLeaks`, `ARefusalMeansAFullHouse`, `UninterruptedStepsAreAssign`
- claims: `OneCurrentWriter`, `LivingWriterIsAlone`, `OnePusherBetweenDraws`, `SafeExactlyWhenUnthreatened`,
  `TheFirstHarmIsAThreats`, `OkFindsTheWordExactlyWhen`, `LeaseLostExactlyToASibling`
- topology and owner role: `OneMutator`, `AByteHolderTakesExactlyWhen`, `OneServer`, `NothingIsLost`,
  `EveryExitPutsItBack`, `AnUninterruptedCallAnswers`
- frozen file: `CrashLeavesOldOrNew`, `CommittedExactlyWhen`, `OpensExactlyWhen`, `WriteThenRead`, `FreezeTo`
- arena: `PassesExactlyWhen`, `TotalsRecoverTheGeometry`, `EveryNewArenaCanBeFrozen`, `RingsPartitionTheSlots`
- cache and encodings: `CacheIsTransparent`, `HitsExactlyWhen`, `Cbor.RoundTrip`, `WriteManifest`, `CompactRun`

## Model

| member | source | states |
|---|---|---|
| ParticipantSafety.FreeByteMeansGone | crates/tf_tree/src/open.rs:143-191 | In every reachable state, a live word loaded earlier and a byte that reads free now prove that the process which registered that incarnation is dead |
| ParticipantSafety.ReclaimSparesTheLiving | crates/tf_tree/src/open.rs:155-191 | In every run of any joiners, deaths, sweepers and serving threads, no CAS that follows "load the word, probe the byte" frees the live record of a process that runs |
| ParticipantSafety.OneLivingParticipantPerSlot | crates/tf_tree/src/open.rs:985-996 | In every run, with any number of servers and with the CAS on RESERVED able to hit a later occupancy, two living processes that hold the byte of one slot are the same process |
| ParticipantSafety.HangupErasesTheLivingExactlyWhen | crates/tf_tree/src/open.rs:976-1015 | With any number of servers, the hangup CAS erases the record of a running process exactly when the slot still holds the live word it loaded and that word's registrant runs and holds the byte |
| ParticipantGrants.OneServerKeepsEveryRunningRecord | crates/tf_tree/src/open.rs:911-1017 | With at most one serving thread over the run, a registered process that runs still has its record and its byte, whatever swept or hung up |
| ParticipantGrants.OneServerGrantsEachSlotOnce | crates/tf_tree/src/open.rs:899-905 | With one serving thread, grants outstanding at the same time are of different slots |
| ParticipantGrants.NoGrantLeaks | crates/tf_tree/src/open.rs:899-1017 | With one serving thread, at every moment the granted slots are exactly those of the connections that are open or whose hangup is not handled |
| ParticipantGrants.OneServerHangupFreesTheClientsRecord | crates/tf_tree/src/open.rs:976-1017 | With one serving thread, the live record a hangup frees is that of the client whose socket closed, and that client is dead |
| ParticipantHandover.SuccessorsKeepEveryRunningRecord | crates/tf_tree/src/open.rs:911-1017 | With any number of successive servers of which only the newest acts, each starting while no living process is between its grant and its byte, and with second probes answered, every registered process that runs has its record and its byte |
| ParticipantHandover.SuccessorsHangupSparesTheLiving | crates/tf_tree/src/open.rs:976-1015 | Under that hand-over condition the newest server's hangup callback never erases the record of a running process |
| HandoverRuns.HandoverIsSafeExactlyWhenSettled | crates/tf_tree/src/open.rs:899-1017 | From a hand-over on, no orderly run leads to a hangup that erases a running process's record if no living process was between its grant and its byte; if one was, with the dead's bytes given back and a process yet to ask, some orderly run does |
| ParticipantRuns.ProbingFirstErasesALiveRecord | crates/tf_tree/src/open.rs:155-165 | A run in which a sweeper that probes the byte before it loads the word erases a live record: the read order is needed |
| ParticipantRuns.TwoServersEraseALiveRecord | crates/tf_tree/src/open.rs:976-1017 | A run in which the second of two owners erases the live record of a running process through its hangup callback |
| ParticipantRuns.AnUnansweredProbeErasesALiveRecord | crates/tf_tree/src/open.rs:960-973 | A run in which the heir starts with all settled, its second probe of a held slot goes unanswered, and its hangup callback then erases the live record there |
| ParticipantRuns.AStaleCasFreesAReservedWord | crates/tf_tree_core/src/participant.rs:240-262 | A run in which a stale CAS frees the RESERVED word of a running registrant, and the registrant then publishes all the same |
| Assigner.ReclamationVerdict | crates/tf_tree/src/open.rs:170-191 | A slot is reclaimable exactly when it is not the caller's, its word is not FREE and the kernel says that its byte is free; the observed word is the loaded one |
| Assigner.SlotTable.Assign | crates/tf_tree/src/open.rs:911-974 | Among the first 64 slots of the table, grants the lowest that can be granted, refuses only if there is none, and on the way frees exactly the dead records it came past |
| AssignerSteps.UninterruptedStepsAreAssign | crates/tf_tree/src/open.rs:911-974 | From any state of the protocol in which a server is at rest and a client has asked, the server's own steps alone come to a state that stands to the first as the loop's effect does, with the client holding the same grant or none |
| AssignerSteps.UninterruptedStepsAreHangup | crates/tf_tree/src/open.rs:976-1017 | From any state in which a client of a server at rest has closed its socket, the server's own steps free the slot's record and give the grant back |
| ParticipantAttach.AnUninterruptedAttach | crates/tf_tree_core/src/participant.rs:137-221 | From any state in which it was named a slot, a participant's own steps leave at a held byte, keep the byte alone as a reader, give it back at a record that is not free, and else register with the next incarnation |
| ParticipantAttach.AnUninterruptedDetach | crates/tf_tree_core/src/participant.rs:223-233 | From any state in which it is attached, its own steps take out its record if that is still its own, and give back its byte |
| ParticipantAttach.UninterruptedStepsAreASweep | crates/tf_tree/src/tree.rs:2155-2203 | From any state, a sweeper's own steps do to one slot what the sweep's verdict on it says, and nothing else |
| Assigner.SlotTable.Hangup | crates/tf_tree/src/open.rs:976-1017 | Frees the slot's record whatever it holds and gives the grant back |
| Assigner.SlotTable.ReapParticipants | crates/tf_tree/src/tree.rs:2155-2203 | Frees exactly the provably dead records and returns how many they were |
| Assigner.DeadRecordsNeverRefuse | crates/tf_tree/src/open.rs:926-952 | When the kernel answers, a slot cannot be granted only because it is granted, byte-held or the owner's own: what dead participants left never counts |
| Assigner.ARefusalMeansAFullHouse | crates/tf_tree/src/open.rs:911-974 | When the kernel answers, a handshake is refused only if each of the first 64 slots of the table is granted, byte-held or holds the owner's own record |
| Assigner.ARoomMeansAGrant | crates/tf_tree/src/open.rs:911-974 | And if one of them is none of these, a slot at or below it is granted, which was not granted and whose byte nobody held |
| Claims.OneCurrentWriter | crates/tf_tree_core/src/edge.rs:252-267 | In every run of claims, releases, deaths and reaps, of any threads, at most one undropped writer has the epoch the record still carries |
| ClaimPushes.OnePusherBetweenDraws | crates/tf_tree_core/src/edge.rs:393-402 | In every run, two pushes that are accepted with no draw of an epoch between them are of one thread |
| ClaimPushes.ARevokedWriterNeverPushes | crates/tf_tree_core/src/edge.rs:393-402 | From any state in which a draw has outdated a writer, no push of it is accepted in any run until it is dropped |
| ClaimCalls.AnUninterruptedClaim | crates/tf_tree/src/tree.rs:1452-1534 | From any state, a claim's own steps leave the edge alone if the record is not free; else they move the epoch by one, and end with a writer, its word and the lease, or with an error, a free record and the lease as it was |
| ClaimCalls.ClaimThenDrop | crates/tf_tree/src/tree.rs:946-960 | A claim of a free edge and the drop of its writer leave the edge as it was, one epoch on |
| ClaimLeases.LivingWriterIsAlone | crates/tf_tree/src/tree.rs:1452-1534 | With one attempt a tree, a living writer's tree holds the lease byte, and no other living thread is writing the edge |
| ClaimLeases.AnErrorLeavesNothing | crates/tf_tree/src/tree.rs:1593-1635 | In every run, a claim that ends in an error after its owner word was stored leaves neither its own word in the record nor a byte its thread took; with one attempt a tree, the tree does not hold the byte at all |
| ClaimLeases.AReapThatLoadsLaterIsItsOwn | crates/tf_tree/src/tree.rs:3069-3108 | With one attempt a tree, whatever is interleaved: a reap about to draw that would revoke a living writer whose Ok came before its load is by the writer's own tree, and the word it loaded does not name the tree's slot |
| ClaimLeases.ALaterReapRevokesExactlyWhen | crates/tf_tree/src/tree.rs:2118-2149 | A reap by any thread, the writer's own tree included, that begins after a living writer's Ok gets to its draw, and revokes the writer, exactly when it is by the writer's tree and the owner word is neither free nor of the tree's slot |
| ClaimLeases.LeaseLostExactlyToASibling | crates/tf_tree/src/tree.rs:946-960 | Over any run a thread lives through without unlocking, the byte it held at the start is its tree's after every step exactly when no other thread of its tree unlocks in the run |
| ClaimWords.OkFindsTheWordExactlyWhen | crates/tf_tree/src/tree.rs:1474-1494 | For a claim that has just stored its owner word: however it comes to return Ok, the record names it at that Ok, if no other living thread was then between its draw and its store of the word; if one was and the lease can be had, some run to Ok loses the word |
| ClaimWords.OkExactlyWhenNoDraw | crates/tf_tree/src/tree.rs:1606-1634 | A claim's re-check returns Ok exactly when nobody drew an epoch since the claim drew its own |
| ClaimThreats.SafeExactlyWhenUnthreatened | crates/tf_tree_core/src/edge.rs:252-314 | With one attempt a tree, for every reachable state in which a living writer of the current epoch is named by the record: its epoch stays current and its word in place in every run it lives through without dropping, exactly when no other living thread has swapped and not stored, is past a probe that read free, or has loaded the word in the writer's own tree |
| ClaimThreats.TheFirstHarmIsAThreats | crates/tf_tree/src/tree.rs:3069-3108 | In every run that outdates such a writer or takes its word out, the first step to do so is by a thread that already was such a threat |
| ClaimRevocations.AnEarlyProbeRevokesALiveWriter | crates/tf_tree/src/tree.rs:3086-3103 | A run, with one attempt a tree, in which a reaper of another tree that probed before the lease was taken draws after the re-check and revokes a living writer that holds its lease |
| ClaimRevocations.ASlowClaimerRevokesALiveWriter | crates/tf_tree_core/src/edge.rs:252-267 | A run in which nobody is under way when a claim stores its word, and a claimer of another tree whose swap was reaped draws its number after that claim's Ok |
| ClaimSiblings.TwoWritingTreesNeedACut | crates/tf_tree/src/tree.rs:946-960 | In every run, two living processes have a writer of the edge only after a sibling thread of one of them unlocked the byte since that writer's claim took its lease |
| ClaimSiblings.TheCutMayPrecedeTheOk | crates/tf_tree/src/tree.rs:1606-1634 | A run in which a claim returns Ok while nobody holds its byte, because a sibling unlocked it between the claim's lease and its re-check, and another tree then claims beside it |
| ClaimRuns.ASiblingsDropExposesALiveWriter | crates/tf_tree/src/tree.rs:946-960 | A run in which one thread drops a revoked writer and so leaves its sibling's living writer open to a reaper that loads later |
| ClaimRuns.SiblingsPushTogether | crates/tf_tree_core/src/edge.rs:393-402 | A run in which two threads of one tree are both in the middle of a push to one edge |
| ClaimRuns.OkWithAnEmptyRecord | crates/tf_tree/src/tree.rs:3086-3097 | A run in which the claim returns Ok although a reap overlapped it, and the record is then cleared under the living writer |
| ClaimRuns.ARefusedClaimRevokesALiveWriter | crates/tf_tree/src/tree.rs:1482-1494 | The continuation in which another tree's claim is refused the lease and has moved the epoch past the living writer |
| ClaimRuns.AnOwnReaperRevokesALiveWriter | crates/tf_tree/src/tree.rs:3086-3108 | A run, with one attempt a tree, in which a reaper of the writer's own tree that loads after its Ok is about to revoke it, because a slower claimer stored its word over the writer's |
| ClaimReaper.ClaimTable.ReapClaims | crates/tf_tree/src/tree.rs:3069-3108 | Revokes exactly the unleased claims whose word names another slot than the own one, and the given slot if there is one, or is still being claimed in an unscoped sweep; leaves word and epoch of all others, and returns the number |
| ClaimReaperSteps.UninterruptedStepsAreASweep | crates/tf_tree/src/tree.rs:3069-3108 | From any state of the claim protocol, an idle thread's own steps do to the edge what the sweep's contract says |
| TopologyLock.OneMutator | crates/tf_tree/src/tree.rs:1343-1388 | In every run over any trees and threads, whatever the liveness predicate answers, at most one living thread is between taking and giving back the topology |
| TopologyLock.ALivingNameHoldsTheByte | crates/tf_tree_core/src/topology.rs:123-172 | A word stored by a thread that lives means that its tree's description holds the topology byte |
| TopologyLock.AStealTakesFromTheDead | crates/tf_tree_core/src/topology.rs:145-168 | A thread that holds the byte and replaces another's word takes it from a thread that is dead |
| TopologyLock.AByteHolderTakesExactlyWhen | crates/tf_tree_core/src/topology.rs:145-168 | In every reachable state, a word on which a byte holder has spun out is still there and a dead thread's, and the holder takes it exactly when it names another slot that the predicate calls gone |
| TopologyCalls.AnUninterruptedMutation | crates/tf_tree/src/tree.rs:1343-1388 | From any state in which the mutex is free and nobody else holds the byte, a mutation gets both locks exactly when the word may be taken, and leaves word, byte and mutex free; refused, it leaves the word as it was |
| TopologyLock.TakeTopologyLease | crates/tf_tree/src/tree.rs:1402-1441 | Ends within 32 attempts, with the lease, contention or the errno of the first decisive answer |
| TopologyLock.TopoLock.Acquire | crates/tf_tree_core/src/topology.rs:123-172 | Takes the word exactly when it is free or names another slot that is not alive, and otherwise leaves it |
| TopologyRuns.WithoutTheMutexTwoMutate | crates/tf_tree/src/tree.rs:1350-1388 | A run without the per-tree mutex in which two living threads mutate at once |
| TopologyRuns.AReusedSlotIsNotStolen | crates/tf_tree_core/src/topology.rs:149-155 | A run in which a dead mutator's word survives because its slot belongs to a living process again |
| OwnerMigration.OneServer | crates/tf_tree/src/open.rs:251-260 | In every run of creation, takeover, teardown and death, with any number of calls in flight, whoever serves holds byte 0 and its slot byte, so no two processes serve |
| OwnerMigration.PutDropsExactlyWhen | crates/tf_tree/src/open.rs:358-368 | Putting an attachment back drops one exactly when the call carries none and the cell was filled since; a call that carries the session overwrites nothing |
| OwnerMigration.EveryExitPutsItBack | crates/tf_tree/src/open.rs:346-420 | With one call in flight, a call begun on a joined tree keeps the slot byte throughout and ends serving with byte 0 if it says Inherited; otherwise the joined attachment is back in its cell, and byte 0 is not the tree's after contention or an error, but for a failed bind whose release of it fails too |
| OwnerConservation.NothingIsLost | crates/tf_tree/src/open.rs:346-420 | In every run, with any number of calls in flight, a tree's attachment is in its cell, in one call's hands or in the drop that ends it, and in one of them only |
| OwnerAnswers.OnlyAWritableTreeTries | crates/tf_tree/src/open.rs:346-420 | In every run, only a call on a writable tree takes the attachment out, tries for byte 0, or answers Inherited, Contended or an error; only one on a read-only tree answers ReadOnly |
| OwnerAnswers.ReadOnlyExactlyWhen | crates/tf_tree/src/open.rs:353-355 | A call past the lost-owner test, however it goes on, answers ReadOnly exactly when its tree is read-only |
| OwnerAnswers.EarlyAnswersExactlyWhen | crates/tf_tree/src/open.rs:347-352 | With one call in flight, a call begun on a joined tree never answers NotApplicable at its first test, and OwnerAlive at the second exactly when the socket has not hung up or somebody else holds byte 0 |
| OwnerAnswers.AnUninterruptedCallAnswers | crates/tf_tree/src/open.rs:346-420 | From every reachable state, a call that nobody interrupts answers, and leaves byte 0, the cell and the server, as a table over the tree, byte 0 and the system's answers says |
| OwnerMigrationRuns.SessionFirstMakesTwoServers | crates/tf_tree/src/open.rs:251-260 | A run with the two fields dropped in the other order in which two processes serve |
| OwnerMigrationRuns.TwoCallsLoseTheSession | crates/tf_tree/src/open.rs:358-368 | A run with two calls in flight on one tree: one returns Inherited, and afterwards nobody serves and the slot byte is gone |
| Layout.Compute | crates/tf_tree_arena/src/layout.rs:136-181 | The regions filled with a running offset are the prefix sums of the sizes, and depend on the capacities through their sum alone; the numbers are unbounded, and below 2^25 edges the total stays below 2^64 |
| Layout.BuildLayout | crates/tf_tree_arena/src/layout.rs:191-226 | Over unbounded sums: accepts exactly the lists with one capacity an edge, each zero or a power of two, whose total fits 32 bits, and otherwise names the first cause |
| LayoutWraps.Accepts64 | crates/tf_tree_arena/src/layout.rs:136-226 | Over 64-bit wrapping sums: accepts exactly the good lists whose true total modulo 2^64 fits 32 bits; so every list the unbounded sums accept, and below 2^25 edges no other |
| LayoutWraps.AWrappedTotalFits | crates/tf_tree_arena/src/layout.rs:209-226 | A list of good capacities whose true total is above 2^64 and which the wrapped sums accept |
| Layout.AcceptedFitsU32 | crates/tf_tree_arena/src/layout.rs:209-226 | An accepted layout's regions are 64-aligned, contiguous, disjoint and end at its total, and every number that is narrowed fits 32 bits |
| Layout.TotalsRecoverTheGeometry | crates/tf_tree_arena/src/layout.rs:246-275 | From the three totals alone a reader recomputes every region of an accepted layout |
| Layout.NoWrap | crates/tf_tree_arena/src/layout.rs:136-181 | Below 2^25 edges the total stays below 2^64, so no 64-bit sum on the way wraps |
| ArenaHeaders.HeaderMemory.WriteHeaderAt | crates/tf_tree_arena/src/heap.rs:190-234 | Whatever the memory held, the stores leave exactly the layout's header in it, and the identity it was given |
| ArenaHeaders.WrittenHeaderPasses | crates/tf_tree_arena/src/check.rs:170-219 | The header written for any accepted layout passes the validator at that layout's size |
| ArenaHeaders.PassesExactlyWhen | crates/tf_tree_arena/src/check.rs:170-219 | A header passes exactly when it is the one the code writes for the layout its own counts imply, at the size that was mapped |
| ArenaHeaders.PassingHeaderTiles | crates/tf_tree_arena/src/check.rs:193-217 | The regions a reader forms from the offsets of a header that passes, whoever wrote it, are 64-aligned, contiguous, disjoint and end at the mapping's end |
| ArenaImages.ImageRoundTrip | crates/tf_tree_arena/src/header.rs:55-137 | Reading the header back from an image that holds its fields at their offsets gives the header that was put there |
| ArenaImages.EveryNewArenaCanBeFrozen | crates/tf_tree_arena/src/frozen.rs:415-417 | The image of a new arena with any accepted layout passes the check a frozen file's opener makes on it |
| FrozenFormat.HeaderRoundTrip | crates/tf_tree_arena/src/frozen.rs:52-81 | Parsing the 128 header bytes gives back the header |
| FrozenFormat.PlanExactlyWhen | crates/tf_tree_arena/src/frozen.rs:247-285 | A header is planned exactly when the manifest length fits 32 bits and the file size 64; it satisfies the extent checks exactly when the arena is at least 320 bytes |
| FrozenChecks.OpensExactlyWhen | crates/tf_tree_arena/src/frozen.rs:349-484 | Any file opens exactly when its bytes hold the magic, version 3, this layout's hash, its own length, an aligned arena offset, a manifest between header and arena, and an arena of at least its header inside the file that passes its own check |
| FrozenChecks.RefusalsNameTheFirstFault | crates/tf_tree_arena/src/frozen.rs:349-484 | And a file that does not open is refused with the error of the first of these that fails |
| FrozenCrash.CrashLeavesOldOrNew | crates/tf_tree_arena/src/frozen.rs:202-222 | Stopped after any byte of any effect, inside the header too, over any earlier content: if the file opens, nothing was done to it, or it shows exactly the new image and the new manifest |
| FrozenCrash.CommittedExactlyWhen | crates/tf_tree_arena/src/frozen.rs:318-325 | Stopped after any byte of its header, the file opens exactly when the arena's offset is whole and its size reads whole; it then shows the image under a header right in all but its torn provenance |
| FrozenCrash.SizeIsWholeBy | crates/tf_tree_arena/src/frozen.rs:318-325 | The size does not read whole up to byte 40; it does from byte 44 on for an arena below 2^32 bytes, and from byte 48 on for any |
| FrozenCrash.CompleteFileOpens | crates/tf_tree_arena/src/frozen.rs:349-418 | A complete file opens on the header, image and manifest that were written |
| FrozenCrash.WithoutDiscardAMixtureOpens | crates/tf_tree_arena/src/frozen.rs:209-212 | Without the truncation to zero, an overwrite in place stopped anywhere past the image's header leaves a file that opens on a mixture of old and new image |
| FrozenFiles.File.PwriteAll | crates/tf_tree_arena/src/frozen.rs:327-343 | The replies decide, by a recursive account of them, how much of the buffer lands and how the loop ends; what lands is a prefix, each byte written once and in order, and nothing else changes |
| FrozenFiles.File.CopyImage | crates/tf_tree_arena/src/frozen.rs:301-315 | The chunk loop writes each image byte exactly once, in order, up to where it stops |
| FrozenFiles.File.WriteFrozen | crates/tf_tree_arena/src/frozen.rs:223-246 | On every exit or death the file is one the crash theorem speaks of, with nothing of the header unless the file was synchronised; success means a complete file; interrupted or short transfers never make it fail, and with a transfer a byte and three answers to come it succeeds |
| FrozenFiles.File.PreadExact | crates/tf_tree_arena/src/frozen.rs:345-361 | Replies and file length decide how the loop ends; success gives exactly the bytes asked for, and under interruptions and short reads it fails exactly at the end of the file |
| FrozenFiles.File.Open | crates/tf_tree_arena/src/frozen.rs:377-418 | A success shows what the file holds; if the kernel fails nothing and has enough to say, the call decides as the checks of the content do |
| FrozenFiles.File.ReadManifest | crates/tf_tree_arena/src/frozen.rs:432-442 | Returns the manifest bytes the header points at, whatever short reads it took |
| FrozenFiles.WriteThenRead | crates/tf_tree_arena/src/frozen.rs:223-442 | For any valid image, any manifest that fits 32 bits and any interrupted and short transfers, writing never fails, and opening and reading give back the same header, image and manifest; with enough answers to come nobody dies |
| Freeze.Directory.FreezeTo | crates/tf_tree/src/frozen.rs:103-131 | A success leaves a target that opens on the new image and manifest, a failure leaves it as it was, and a process killed anywhere, after the rename took effect included, leaves one or the other; only the temporary's name changes besides |
| Freeze.TempsDiffer | crates/tf_tree/src/frozen.rs:42-58 | No two processes, and no two calls of one process, use the same temporary for a target |
| PlanCache.Cache.WithPlan | crates/tf_tree/src/cache.rs:75-119 | Answers from the slot on a hit and from the compile on a miss, and stores exactly the storable misses |
| PlanCache.CacheIsTransparent | crates/tf_tree/src/cache.rs:75-129 | After any run of lookups under mutations, an answer the generation check accepts is what a fresh compile and evaluation give at that generation, and a refusal from a slot is what compiling gives at the key's generation |
| PlanCache.AHitIsNeverStale | crates/tf_tree/src/tree.rs:1739-1766 | With growing generations, a plan served on a hit is stamped with the generation the lookup read, even if the compile that stored it straddled a mutation |
| PlanCache.HitsExactlyWhen | crates/tf_tree/src/cache.rs:88-118 | A lookup hits exactly when the last storable lookup that maps to its slot had the same key |
| PlanCache.RoundRobinHitsExactlyWhenAlone | crates/tf_tree/src/cache.rs:88-118 | After one round over distinct keys, a call of the next round hits exactly when no other key of the round shares its slot |
| PlanCache.HitsPerRound | crates/tf_tree/src/cache.rs:88-118 | The hits of a steady round are as many as the keys that are alone in their slot |
| PlanCache.IndexPermutesTheLowNibble | crates/tf_tree/src/cache.rs:47-59 | With target, source and generation fixed, two scopes get the same slot exactly when their low four bits agree |
| CacheScopes.Scopes.CacheScopeFor | crates/tf_tree/src/tree.rs:2377-2423 | A heap or frozen tree, or a mapping whose uuid is all zero, gets a number no tree had before; any other shared arena gets its uuid's fold with the top bit set |
| CacheScopes.ScopesCollideOnlyByUuid | crates/tf_tree/src/tree.rs:2397-2407 | Two scopes of one process that are equal belong to shared arenas whose uuids fold alike |
| CacheScopes.EitherHalfSeparates | crates/tf_tree/src/tree.rs:2397-2407 | Two uuids that agree in one half fold alike exactly if they agree in the low 63 bits of the other |
| Cbor.HeadRoundTrip | crates/tf_tree/src/cbor.rs:28-46 | The decoder reads back the major type and argument of every head |
| Cbor.HeadIsShortest | crates/tf_tree/src/cbor.rs:27-46 | No head that the decoder accepts for the same major type and argument is shorter |
| Cbor.RoundTrip | crates/tf_tree/src/cbor.rs:27-81 | The decoder undoes the encoder on every item and takes exactly its bytes |
| Cbor.Writer.I64 | crates/tf_tree/src/cbor.rs:53-62 | The complement of the two's complement encodes every 64-bit integer, the least one included |
| Manifest.WriteManifest | crates/tf_tree/src/frozen.rs:136-210 | For any numbers of frames and edges the bytes decode to one complete item with nothing after it, whose lists hold as many items as they announce |
| Manifest.WhatAManifestSays | crates/tf_tree/src/frozen.rs:136-210 | Key by key: what stands under each, with ids from one, the edges' sentinel left out, and null for what is absent |
| CompactPlan.WordIsFaithfulExactlyWhen | crates/tf_tree_bench/examples/step_cost.rs:326-338 | A dynamic step's word gives back its edge and direction exactly when the edge id is below 2^30 |
| CompactPlan.EncodeSteps | crates/tf_tree_bench/examples/step_cost.rs:328-338 | The array holds each step's word and the side table the static poses in order |
| CompactPlan.FoldReplica | crates/tf_tree_bench/examples/step_cost.rs:253-297 | The loop over steps returns the composed pose, or fails at the first step that fails |
| CompactPlan.FoldCompact | crates/tf_tree_bench/examples/step_cost.rs:341-380 | The loop over words that encode a plan returns what folding the plan returns |
| CompactPlan.CompactRun | crates/tf_tree_bench/examples/step_cost.rs:325-383 | For any poses, products and sampler, encoding and folding the words is folding the steps |
| CompactPlan.AWideEdgeIsAnotherEdge | crates/tf_tree_bench/examples/step_cost.rs:326-338 | From edge id 2^30 on, a sampler that knows only that edge tells the two folds apart |
| Builder.NextPow2U32 | crates/tf_tree/src/tree.rs:107-118 | The least power of two that is at least n, for n up to 2^31; above that 2^31, which falls short of n |
| Builder.UniqueNames | crates/tf_tree/src/tree.rs:464-482 | Every frame that is mentioned gets one name, no name comes twice, and they stand in the order of first mention |
| Builder.FirstsAreInOrder | crates/tf_tree/src/tree.rs:464-482 | Of two names, the earlier one is mentioned before the later one is |
| Builder.CheckChildren | crates/tf_tree/src/tree.rs:484-492 | Refuses exactly the lists in which two edges share a child, and names the child of the first edge that repeats one |
| Builder.LayRings | crates/tf_tree/src/tree.rs:541-580 | The running offset never leaves 32 bits, and each dynamic ring starts after the rings before it |
| Builder.BuildWith | crates/tf_tree/src/tree.rs:460-588 | Refuses a shared child, too many frames, too many edges and a bad layout, in this order and for these reasons alone; an accepted build names each frame once, has one parent a frame, power-of-two rings, and as many slots as its layout |
| Builder.RingsAreInOrder | crates/tf_tree/src/tree.rs:541-580 | Dynamic rings lie in edge-id order, each ending before the next begins |
| Builder.RingsPartitionTheSlots | crates/tf_tree/src/tree.rs:541-580 | A slot is in the sample table exactly when it is in some dynamic ring, and it is in one only |
| OffsetSampler.Sampler.Push | crates/tf_tree/src/tree.rs:716-767 | The countdown in the cell follows the specification over every push, and the field changes only on an accepted push with a readable clock |
| OffsetSampler.SampleInterval | crates/tf_tree/src/tree.rs:769-803 | Zero exactly off the wall clock; else the pushes of one declared second, at least one, and 1024 when no rate is declared |
| OffsetSampler.StoresExactlyWhen | crates/tf_tree/src/tree.rs:735-767 | After any pushes, the next stores exactly if it is accepted, its clock can be read and a whole interval of accepted pushes has passed since the last store |
| OffsetSampler.StoresEveryNth | crates/tf_tree/src/tree.rs:735-767 | With a readable clock and interval n, k accepted pushes store ceil(k / n) offsets, at pushes 0, n, 2n and so on |

## Left out

- Weak memory orderings: every step is atomic and sequentially consistent.
- System calls, sockets, `mmap`, seals and thread spawning: only their effects are here, as steps or as answers from a list.
- Power loss below `fdatasync`: a crash is the death of the process, with writes in order.
- The 30-bit incarnation in a participant word and the 48-bit epoch in an owner word: both are unbounded counters here, so their wrap-around is not modelled.
- The `granted` mask is a set of slots; its 64 bits are the bound on the slots that are tried.
- Participants without a lock byte, hand-bound servers and `build_shared` creators: the source states them out of contract.
- `fork`: detached trees and writers in a child process are not part of the model.
- `Open::open`'s retry loop and timeouts: a fresh opener that takes byte 0 in passing is a step of the owner-role model, its back-off is not.
- The owner-role model leaves out the hangup of a served client's socket and the socket file; `owner_lost` sees an input for the hangup and byte 0 for the role.
- Claims, topology and owner-role protocols are on values, not on objects: their steps interleave, which methods of a class cannot do. Their uninterrupted loops (`Assign`, `ReapParticipants`, `ReapClaims`, `TakeTopologyLease`) are methods.
- A live snapshot: the image is one value while it is frozen, so the race with publishers is not modelled.
- Freeze.Directory.FreezeTo: models the directory as a map of complete contents and a target that has a file name; permissions and a missing directory are one refused call.
- PlanCache.CacheIsTransparent: takes the compile as an oracle for each generation and the edge records it reads as part of that; the walk in `compile` is not modelled.
- Cbor.RoundTrip: text is a byte string; that it is UTF-8 is not checked.
- Builder.BuildWith: interning and topology errors (a hash collision, a full table, a cycle) come from code that is not modelled, so a declaration list this model accepts may still be refused there.
- Layout.Compute: sums over unbounded numbers; its last clause gives the bound, 2^25 edges, below which the 64-bit sums of the source are the same.
- Layout.BuildLayout: likewise; `LayoutWraps.Accepts64` says what the wrapping sums of a release build accept. The regions of a layout that is accepted only by wrapping are not modelled; a build with overflow checks panics there.
- Layout.NoWrap: bounds the total and not each intermediate, all of which are at most the total and a constant.
- `layout_hash` is the constant its own test pins; the hashing is not modelled.
- CacheScopes.Scopes.CacheScopeFor: the counter is unbounded; the source only asserts that it stays below 2^63.
- Collisions between the folded uuids of two shared arenas: the source relies on their randomness.
- Error texts, benchmarks, statistics, SE(3) arithmetic, the seqlock ring and the path walk: either floating point, plumbing, or facts of one branch.
