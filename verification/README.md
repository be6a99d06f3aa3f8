# Central's protocols and algorithms, modelled in Dafny

Central keeps the truth about sessions, delegated calls and turn results. These modules model how it keeps that truth
under retries, crashes, duplicated and reordered messages and interleaved writers, together with the self-contained
algorithms of the edge worker, and prove what the code is built to guarantee.

**Storage and its clients.** `CasStorage` models the record folders of the file storage: `create` and compare-and-set
run one at a time per record kind, and any number of clients read, compute and write in separate steps. Its theorems
(no lost update, invariants and preorders over runs, no clashing records) are generic in the record. `CasLoop` is the
read-decide-write loop as code, with the other clients' writes landing at every `await`.

**Delegation.** `Delegation` holds the record of a parent's relation to one callee, the decision each manager operation
makes on it, and the shape every write keeps. `DelegationMachine` lifts that to all interleavings; `DelegationManager` is
the manager and dispatcher as loops, each call shown to take effect at one moment and to end. `Redrive` and `FanoutDrive`
re-run `startCall`, `dispatchNext`, `prepareCall` and `progressFanoutGroup` with a crash after any durable write.
`Fanout` is the fan-out group and its settlement.

**Results and events.** `SessionLog` is the two-write event append and its repair on redelivery. `OutboundQueue` and
`EdgeWorker` are the edge half of result delivery, and `ResultDelivery` puts both halves on a network that loses,
repeats and reorders.

**Images.** `FloodFill`, `Sampling` and `LedDetection` are the sampled grids and connected components behind LED and
glare detection. `Frames`, `FrameProcessing` and `ImageSharing` are cropping, masking, pixelation and downscaling, and
the consent gate around them.

**Names and texts.** `CanonicalJson` is the canonical printer behind digests. `ChannelNames` is the message bus's group
names and user ids. `MessageLimits` is what the byte limits on inputs and results measure.

**Smaller protocols.** `Observe` is the client SDK's merge of history and live events, `Pairing` the device pairing
lifecycle, `Sidecar` the sidecar's command handlers.

Conventions and assumptions, in all modules:

- One tenant is modelled. One storage operation is atomic per record kind, as the write chains of the file storage arrange;
  a read sees one whole record.
- UUIDs are fresh, digests and credential hashes are collision-free (so equal digests are equal texts), and a
  device ref determines its case and device. Timestamps and the `updatedAt` family are dropped.
- A pixel is one record of four channels rather than four array cells; channel arithmetic is exact, and what a clamped
  byte array stores is the nearest integer, ties to even. Luma is kept in thousandths.
- A class's `fuel` is the number of durable writes a process still makes; it dies when it is to make another, and the
  contracts say how few it must have had. A `schedule` is what other clients will write. Every statement holds for all
  of them.

Where the code and its documentation disagree, the code is followed: a fan-out member's call is pinned to its device
unless its caller key was taken by a call for another target (`FanoutDrive.TakenKeyIsNotPinned`, with the exact condition
in `FanoutDrive.Driver.StartMember`), and sampled pixels can exceed the documented maximum
(`Sampling.RequestIsExceeded` for one frame, `Sampling.RequestHoldsIff` for exactly which frames keep to it, and
`Sampling.GridIsBounded` for the bound that always holds). The repair of a crashed event append is exact exactly when no
event could be appended in between and either the repaired event carries a status of its own or the last redelivery to
restate the status left it as it was (`SessionLog.LateRepairIsExactIff`, with `SessionLog.LateRepairOverrides` as an
instance).

## Model

| member | source | states |
|---|---|---|
| `CasStorage.RecordFolder.Create` | src/central/storage/local-file-storage.ts:130-143 | A create stores its record exactly when the id is free and no stored record clashes with it; otherwise it changes nothing and returns a record that stands in the way |
| `CasStorage.RecordFolder.CompareAndSet` | src/central/storage/local-file-storage.ts:145-162 | A compare-and-set replaces the record exactly when the expected revision is current, the new one advances it by one and the identity is kept |
| `CasStorage.RevisionCountsSwaps` | src/central/storage/local-file-storage.ts:145-162 | For any number of interleaved clients, a record's revision is its revision at any earlier moment plus the writes that succeeded since, and no record disappears |
| `CasStorage.EqualRevisionEqualRecord` | src/central/storage/local-file-storage.ts:145-162 | Two moments of a run at which a record has the same revision show the same record |
| `CasStorage.HeldWasStored` | src/central/storage/local-file-storage.ts:164-166 | What a client holds between its read and its write was stored at some earlier moment of the run |
| `CasStorage.SwapReplacesWhatWasRead` | src/central/storage/local-file-storage.ts:145-162 | No lost update: every write that succeeds replaces exactly the record its client had read |
| `CasStorage.EventIsAtomic` | src/central/storage/local-file-storage.ts:346-384 | So each event of an interleaving stores one new record, replaces one record by what was computed from it, or changes nothing |
| `CasStorage.RecordsKeep` | src/central/storage/local-file-storage.ts:346-384 | A property of new records that writes keep holds of every stored record at every moment of every run |
| `CasStorage.RecordsMove` | src/central/storage/local-file-storage.ts:346-384 | Any preorder that writes respect relates a record to all its later versions |
| `CasStorage.RecordsApart` | src/central/storage/local-file-storage.ts:346-384 | When clashing depends only on what compare-and-set keeps, no two stored records ever clash |
| `CasLoop.RevisionTells` | src/central/storage/local-file-storage.ts:145-162 | Across any number of other clients' writes, an unchanged revision means an unchanged record |
| `CasLoop.SharedFolder.Update` | src/central/managers/delegation/fanout-manager.ts:73-97 | The read-decide-compare-and-set loop ends, and its effect is that of the whole operation applied at one moment, as the last writer, to the record as stored then |
| `Delegation.NextQueued` | src/central/managers/delegation/delegation-dispatcher.ts:41 | The call picked for activation is a queued one with the lowest sequence number; none is picked only if none is queued |
| `Delegation.EveryWriteKeepsShape` | src/central/managers/delegation/delegation-manager.ts:94-157 | Every write of every manager operation keeps the shape of a delegation (call numbering, queue bound, completed then active then queued, active id naming exactly the active call, failed means all calls ended) and only evolves it: dispatch ids, terminal outcomes and a failed status are never taken back |
| `Delegation.NewDelegationShape` | src/central/managers/delegation/delegation-manager.ts:69-85 | A delegation as first built has the shape |
| `Delegation.NextQueuedIsFirst` | src/central/managers/delegation/delegation-dispatcher.ts:41 | In an open delegation the call activated next is the first one that is not completed |
| `Delegation.OpenExactly` | src/central/managers/delegation/delegation-manager.ts:319-337 | Opening moves on exactly a delegation whose child is being created, is silent for an open one and refused for one that is over |
| `Delegation.CompleteExactly` | src/central/managers/delegation/delegation-manager.ts:115-132 | A completion is accepted exactly for the active call's own turn and an admissible result; it completes that call, frees the delegation and touches nothing else |
| `Delegation.FailExactly` | src/central/managers/delegation/delegation-manager.ts:134-157 | A failure is accepted exactly for the active call's own turn; it keeps the completed calls, fails the active one with the message and every queued one, and closes the delegation for that reason |
| `Delegation.ActivateExactly` | src/central/managers/delegation/delegation-dispatcher.ts:40-70 | Activation happens exactly when no call is active and one is waiting; it activates the first waiting call with the given dispatch and touches nothing else |
| `Delegation.AppendExactly` | src/central/managers/delegation/delegation-manager.ts:281-298 | An append is accepted exactly by a live delegation with room for an admissible input, and adds one queued call under the next number |
| `MessageLimits.AdmittedIff` | src/central/managers/admission/delegate-admission-manager.ts:49-66 | A message is admitted exactly if it is not empty and its UTF-8 text fits the limit |
| `Delegation.AcknowledgeExactly` | src/central/managers/delegation/delegation-manager.ts:94-113 | An acknowledgement is rejected exactly if no call carries the command for that turn; otherwise it marks the first such call, exactly unless that call is accepted already or has ended |
| `Delegation.RegisterAwaitExactly` | src/central/managers/delegation/delegation-manager.ts:227-253 | An await is registered exactly by the delegation's own parent and once per request id |
| `Delegation.FailedCalls` | src/central/managers/delegation/delegation-manager.ts:134-157 | A failing turn fails its own call and every call queued behind it, and leaves the completed ones alone |
| `Delegation.CloseExactly` | src/central/managers/delegation/delegation-manager.ts:182-215 | A terminal close of a delegation that has not failed keeps every completed result, fails every call from the first uncompleted one on with the given failure, and leaves a well-shaped failed delegation |
| `Delegation.CloseAgain` | src/central/managers/delegation/delegation-manager.ts:182-215 | A terminal close of a failed delegation touches no call: under the same reason it writes nothing, under another it overwrites only the close reason and its failure |
| `Delegation.FailedIsOver` | src/central/managers/delegation/delegation-manager.ts:115-157 | A failed delegation has nothing to dispatch and rejects every completion, failure and append |
| `Delegation.MarkRespondedExactly` | src/central/managers/delegation/delegation-manager.ts:255-279 | Marking an await answered flips exactly the one pending request of that id in that call, whenever there is one, and writes nothing otherwise |
| `Delegation.RepeatWritesNothing` | src/central/managers/delegation/delegation-manager.ts:94-279 | Every operation but an append is idempotent: repeated on the record it wrote, it writes nothing |
| `DelegationMachine.CreateKeeps` | src/central/storage/local-file-storage.ts:130-143 | Creating a delegation keeps the table invariant, including one live delegation per parent, delegate and target |
| `DelegationMachine.WriteKeeps` | src/central/storage/local-file-storage.ts:145-162 | So does every manager write |
| `DelegationMachine.WriteBringsOnlyMintedIds` | src/central/managers/delegation/delegation-dispatcher.ts:50-60 | A write introduces no call id but the one it appends and no dispatch id but those it activates with |
| `DelegationMachine.StepIsAtomic` | src/central/managers/delegation/delegation-manager.ts:401-417 | In any interleaving of clients that read, decide and write separately, each step is one whole operation on the stored record, or changes nothing |
| `DelegationMachine.ReachableInvariant` | src/central/managers/delegation/delegation-manager.ts:60-92 | In every reachable state all delegations are well shaped, at most one per relation key is live, and child sessions, call ids and dispatch ids are distinct |
| `DelegationMachine.ReachableEvolution` | src/central/managers/delegation/delegation-manager.ts:182-215 | Between any two moments of any run every record only evolves: terminal calls and dispatch ids are frozen and failed is absorbing |
| `DelegationManager.RanKeeps` | src/central/managers/delegation/delegation-manager.ts:401-417 | Any number of other clients' steps keeps the invariant and only evolves records |
| `DelegationManager.AttemptVerdict` | src/central/managers/delegation/delegation-manager.ts:411-414 | A write computed from a record read earlier fails exactly when that record has moved on, and is never refused |
| `DelegationManager.Apply` | src/central/managers/delegation/delegation-manager.ts:401-417 | The manager loops take effect once, atomically, at one moment between call and return, throw exactly when the operation is rejected at that moment, and end because every failed attempt is another client's success |
| `DelegationManager.ActedOnTheOne` | src/central/managers/delegation/delegation-manager.ts:401-417 | The delegation acted on is the only one of that id, with that child session, or with that call |
| `DelegationManager.DispatchNextOnce` | src/central/managers/delegation/delegation-dispatcher.ts:31-88 | Activation under interference; what is handed on is the stored active call of an open delegation, not accepted yet, and a call is handed on exactly when one is due in the record at hand |
| `DelegationManager.AppendCall` | src/central/managers/delegation/delegation-manager.ts:281-317 | Under interference an append adds one call with a fresh id at one moment, or finds one under the same caller key with the same input, or throws and changes nothing; it throws only if the record it was given takes no such call, or the stored one turned it down at some moment of the call, having no room or the caller key with another input; it ends |
| `Redrive.WriteKeepsWorld` | src/central/managers/delegation/delegation-manager.ts:281-317 | Any write whose caller key is free keeps keys unique, logs bound and ids fresh |
| `Redrive.CreateKeepsWorld` | src/central/managers/delegation/delegation-manager.ts:60-92 | So does creating a delegation with its first call |
| `Redrive.OneInputPerCall` | src/central/managers/delegation/delegated-session-manager.ts:23-74 | A child's log holds at most one input event per call |
| `Redrive.LoggedIsThisCall` | src/central/managers/delegation/delegated-session-manager.ts:28 | An event found under a call's input id carries that very call |
| `Redrive.Central.EnsureChildAndOpen` | src/central/managers/delegation/delegation-manager.ts:319-337 | Opening keeps every call as it is, crash or not; it opens exactly a delegation that is being created, throws only on one that is over, and crashes only when fewer than two writes were left and all are used up |
| `Redrive.Central.StartCall` | src/central/managers/delegation/delegation-manager.ts:40-92 | Crash after any durable write or not: the invariant holds; a repeated start changes no call; any new call is the caller's, with its input, in a delegation to its delegate and target, and a new delegation has its limits; child sessions that exist are left alone; it throws exactly if the parent may not call, the caller key was used with another input or delegate, or the key is new and the relation's live delegation has no room or, without one, the target or input will not do; a throw changes nothing; it crashes only when fewer than three writes were left; else it answers with a stored call of that key, input and delegate, whose delegation is to the caller's target exactly if the key was new or its call's was |
| `Redrive.Central.DispatchNext` | src/central/managers/delegation/delegation-dispatcher.ts:31-88 | A pass is idle exactly if no call is due; with three writes left a due call is handed over, dispatched and with its input event in its child's log, exactly unless its child is missing or not ready for an input it has not had, and then the pass throws; unless it crashes, no call that is due and could be handed over still waits; child logs only grow |
| `Redrive.Central.PrepareCall` | src/central/managers/delegation/delegated-session-manager.ts:23-82 | Preparing a call whose event is logged writes nothing and hands it over; otherwise it throws exactly for a missing or unready child, crashes only when fewer than two writes were left, and else appends exactly its one input event, sets the child running past the call's turn, and touches no other child; no failure leaves anything else behind |
| `Redrive.Central.Drive` | src/central/controllers/delegation-runtime-event-controller.ts:259-298 | For any sequence of passes dying after any number of writes each, the invariant holds throughout, records only evolve and no input event is ever taken back |
| `Fanout.AttachKeeps` | src/central/managers/delegation/fanout-manager.ts:72-98 | Attaching a call moves exactly the one starting member on and keeps the group's shape |
| `Fanout.AttachExactly` | src/central/managers/delegation/fanout-manager.ts:72-98 | Attaching starts exactly a member that waits, repeats silently, and is refused for another call or for a device that is no member |
| `Fanout.OutcomeKeeps` | src/central/managers/delegation/fanout-manager.ts:141-176 | Recording an outcome ends exactly the one member it is about, and settles the group exactly if every other member had ended |
| `Fanout.OutcomeExactly` | src/central/managers/delegation/fanout-manager.ts:141-176 | An outcome is taken exactly by an unfinished member it is about; it is silent once the group is settled or the member has ended, and refused if it is about no member of an open group |
| `Fanout.DeliverExactly` | src/central/managers/delegation/fanout-manager.ts:100-139 | A settled group is marked delivered once, an open one never |
| `Fanout.NewGroupIsFor` | src/central/managers/delegation/fanout-manager.ts:37-60 | A group is opened for exactly its devices, in order, all waiting to start |
| `Fanout.EveryWriteKeepsShape` | src/central/managers/delegation/fanout-manager.ts:72-176 | Every write keeps: settled iff every member ended, an aggregate iff settled and computed from the members, delivered only if settled; nothing settled is taken back |
| `Fanout.SharedCallOverwrites` | src/central/managers/delegation/fanout-manager.ts:155-158 | Why calls must not be shared: recording an outcome rewrites a member that had ended exactly when, in an unsettled group, it shares the call with an unfinished member that comes first and its own answer was another |
| `Fanout.AggregateIsHonest` | src/central/managers/delegation/fanout-manager.ts:193-212 | The aggregate accounts for every device once, in member order, with its result or its failure's code and message, and completed plus failed equal to the total |
| `Fanout.ReachableShape` | src/central/managers/delegation/fanout-manager.ts:72-176 | The shape holds of every stored group in every reachable state of every interleaving |
| `Fanout.ReachableEvolution` | src/central/managers/delegation/fanout-manager.ts:72-176 | Ended members, the aggregate, settlement and delivery are frozen over every run |
| `Fanout.OneGroupPerRequest` | src/central/storage/local-file-storage.ts:346-362 | One parent tool request opens at most one group |
| `Fanout.SettlesOnce` | src/central/managers/delegation/fanout-manager.ts:146-175 | The write that settles a group happens at most once, and the aggregate of that moment is what is stored ever after |
| `Fanout.Apply` | src/central/managers/delegation/fanout-manager.ts:72-139 | Each manager method under interference acts atomically on the group as stored |
| `Fanout.RecordOutcome` | src/central/managers/delegation/fanout-manager.ts:141-176 | The aggregate is returned exactly to the caller whose own write settled the group |
| `FanoutDrive.OneCallPerDevice` | src/central/controllers/delegation-runtime-event-controller.ts:271-278 | Over all delegations a fan-out request holds at most one call per device, and different devices have different calls |
| `FanoutDrive.KeysMeetIff` | src/central/controllers/delegation-runtime-event-controller.ts:271-278 | Two pairs of request and device form one caller key exactly if they are the same pair or one request id is the other followed by # and a text with which the other's device ref begins |
| `FanoutDrive.PlainRefsStayApart` | src/central/controllers/delegation-runtime-event-controller.ts:271-278 | So device refs without # never make two requests meet |
| `FanoutDrive.CallsMeetIff` | src/central/controllers/delegation-runtime-event-controller.ts:271-278 | Over all delegations two fan-out requests share a call exactly if they are of one parent turn and their keys meet in that way |
| `FanoutDrive.MemberCallIsOwn` | src/central/controllers/delegation-runtime-event-controller.ts:271-279 | A call started for one device is attached to no other member |
| `FanoutDrive.Driver.StartMember` | src/central/controllers/delegation-runtime-event-controller.ts:269-289 | A waiting member whose start is refused comes out failed and without a call; any other comes out with its own call, made for its request and device with the group's input and delegate, in a delegation pinned to the device exactly if the device's key was free or its call was pinned so, and dispatched as far as can be; it is pending, or failed exactly because the call due there cannot be handed over; other members are kept, new delegations have the given limits; it dies only when fewer than eight writes were left and all are used up, and everything is valid then |
| `FanoutDrive.Driver.DeliverMember` | src/central/controllers/delegation-runtime-event-controller.ts:240-257 | A pending member whose call has ended takes that call's outcome and every other member is kept; it dies only when no write was left |
| `FanoutDrive.OutcomeIsTheCalls` | src/central/controllers/delegation-runtime-event-controller.ts:240-257 | The outcome recorded for a call is its own result, or its own failure's code and message |
| `FanoutDrive.Driver.Progress` | src/central/controllers/delegation-runtime-event-controller.ts:259-298 | At every crash point members stay linked to their calls and the group only evolves; a pass finishes unless the group or the parent is missing or its writes run out, for which it must have fewer than eight for each member to start, one for each member and one for delivery; a finished pass leaves no member waiting to start and none pending on an ended call, gives every pending member whose call had ended that call's outcome, and delivers exactly a settled group whose parent can be reached; and if every member had ended or had a call that had, it leaves the group settled with its aggregate |
| `FanoutDrive.Driver.OpenGroup` | src/central/controllers/delegation-runtime-event-controller.ts:180-215 | A request that has a group gets that group; a new one is opened only if none has the request, and not only when no write was left |
| `FanoutDrive.Driver.Drive` | src/central/controllers/delegation-runtime-event-controller.ts:259-298 | For any sequence of fan-out passes dying after any number of writes each, in any order with ordinary starts and dispatches, other handlers' writes and changes of child sessions, everything stays valid and groups and calls only evolve; and if no request id has a # of its own, every call whose request id names a device behind a # stays in a delegation pinned to that device |
| `FanoutDrive.MembersArePinned` | src/central/controllers/delegation-runtime-event-controller.ts:271-278 | Then every member's call, with the group's input and delegate, is in a delegation pinned to the member's device |
| `FanoutDrive.DevicesAreApart` | src/central/controllers/delegation-runtime-event-controller.ts:271-278 | and members of different devices are in different delegations |
| `FanoutDrive.TakenKeyIsNotPinned` | src/central/managers/delegation/delegation-manager.ts:50-57 | An instance where they are not: an ordinary call of the turn that used the device's key without a target answers the member's start |
| `FanoutDrive.SettlesWhenAllEnded` | src/central/controllers/delegation-runtime-event-controller.ts:290-297 | After such a pass, if every attached call has ended the group is settled with its aggregate |
| `FanoutDrive.ReportIsTrue` | src/central/managers/delegation/fanout-manager.ts:193-212 | What a settled group reports for a device is the result of that device's own completed call, pinned to the device when keys are; the links this rests on hold after every pass and every death |
| `SessionLog.EventStore.AppendSessionEventOnce` | src/central/controllers/agent-runtime-event-controller.ts:166-232 | The stored log and session after a delivery, uninterrupted or dying after any of its durable writes |
| `SessionLog.RedeliveryRepairs` | src/central/controllers/agent-runtime-event-controller.ts:166-232 | A crash between the two writes followed by a redelivery gives the crash-free log, status, reason and cursor |
| `SessionLog.RedeliveryIsIdempotent` | src/central/controllers/agent-runtime-event-controller.ts:168-204 | Delivering an event twice is delivering it once |
| `SessionLog.ConflictChangesNothing` | src/central/controllers/agent-runtime-event-controller.ts:169-174 | An event id reused for another event throws, exactly then, and changes nothing |
| `SessionLog.StaleLeaseIsKeptOut` | src/central/controllers/agent-runtime-event-controller.ts:205-207 | A new event whose lease is asserted is appended exactly if it carries the session's lease; otherwise it throws and nothing changes, however far its delivery gets |
| `SessionLog.NewEventIsTaken` | src/central/controllers/agent-runtime-event-controller.ts:208-228 | A new event without that demand is always appended, moves the cursor to it, and sets exactly the status and reason it brings |
| `SessionLog.RunKeeps` | src/central/controllers/agent-runtime-event-controller.ts:156-232 | Over all runs with crashes: event ids are unique, the log only grows, the cursor never decreases and trails the log by at most one entry per crash |
| `SessionLog.CrashFreeSequences` | src/central/controllers/agent-runtime-event-controller.ts:208-228 | Without crashes the sequences are exactly 1 to the cursor |
| `SessionLog.RedeliveryIsSilentIff` | src/central/controllers/agent-runtime-event-controller.ts:175-203 | Exactly when a redelivery leaves the session alone |
| `SessionLog.LateRepairIsExactIff` | src/central/controllers/agent-runtime-event-controller.ts:166-232 | For any deliveries, deaths and lease changes between crash and redelivery, the repair gives the crash-free session exactly if no step brought an event that could be appended, and either the repaired event brings a status or the last step to restate the status restated the one the session had |
| `SessionLog.LateCursor` | src/central/controllers/agent-runtime-event-controller.ts:166-232 | The cursor after a late repair is one short of the crash-free one unless nothing raised it in between; without further deaths that is unless nothing could be appended |
| `SessionLog.LateRepairOverrides` | src/central/controllers/agent-runtime-event-controller.ts:189-202 | An instance where it is not: after a failure came in between, a late repair sets the session running again |
| `OutboundQueue.RemovalsAgree` | sdk/edge-worker/src/outbound-queue.ts:51-99 | Removal by first match and removal by filter leave the same queue exactly when at most one item has the id |
| `OutboundQueue.RemovalsDifferOnDuplicates` | sdk/edge-worker/src/outbound-queue.ts:51-56 | An instance where they differ: one item queued twice |
| `OutboundQueue.RemovalIsExact` | sdk/edge-worker/src/outbound-queue.ts:97-99 | Removal takes out exactly the items of the id and keeps ids distinct |
| `OutboundQueue.InMemoryStore.Remove` | sdk/edge-worker/src/outbound-queue.ts:51-56 | The in-memory store removes the first match |
| `OutboundQueue.WebStorageStore.Remove` | sdk/edge-worker/src/outbound-queue.ts:97-107 | The web-storage store removes every match; an empty queue leaves no key |
| `EdgeWorker.PendingIsExact` | sdk/edge-worker/src/edge-worker-runtime.ts:472-475 | A flush publishes exactly the session's queued results for accepted turns, in turn order |
| `EdgeWorker.PendingIsStable` | sdk/edge-worker/src/edge-worker-runtime.ts:472-475 | Results of one turn are published as often as they are queued and in the order they are queued in |
| `EdgeWorker.Worker.HandleInput` | sdk/edge-worker/src/edge-worker-runtime.ts:357-394 | A turn is run only if this run has not accepted it and no result for its input is queued; a queued result is published again instead |
| `EdgeWorker.Worker.EnqueueResultAndFlush` | sdk/edge-worker/src/edge-worker-runtime.ts:460-470 | A result is queued before anything is published and stays queued; then as much of the pending list as the link takes is published under the live lease |
| `EdgeWorker.Worker.FlushRun` | sdk/edge-worker/src/edge-worker-runtime.ts:472-493 | As much of the pending list as the link takes is published, stamped with the live lease; nothing leaves the queue |
| `EdgeWorker.Worker.HandleResultAcknowledged` | sdk/edge-worker/src/edge-worker-runtime.ts:495-511 | An acknowledgement removes the result it names and nothing else |
| `EdgeWorker.Worker.HandlePause` | sdk/edge-worker/src/edge-worker-runtime.ts:549-573 | A pause ends the run and gives up its results once; repeated requests are answered from memory |
| `EdgeWorker.Worker.DiscardQueuedResults` | sdk/edge-worker/src/edge-worker-runtime.ts:525-536 | Discarding removes exactly the session's results |
| `ResultDelivery.LoggedIsAcknowledged` | src/central/controllers/tenant-inbox-controller.ts:31-38 | A copy of a logged result is acknowledged whatever the lease is by then |
| `ResultDelivery.StepKeeps` | sdk/edge-worker/src/edge-worker-runtime.ts:460-511 | Every step of edge, network and central, crashes and reloads included, keeps the delivery invariant |
| `ResultDelivery.ExactlyOnce` | src/central/controllers/agent-runtime-event-controller.ts:166-254 | At every moment of every run: each queued result is in the queue, discarded or logged; only logged results are acknowledged; no result is logged twice, and its entry is a true copy in its own session |
| `ResultDelivery.LoggedUnderLease` | src/central/controllers/agent-runtime-event-controller.ts:205-207 | Whatever result is logged at any moment of any run, it was logged from a copy that carried the session's lease of that moment |
| `ResultDelivery.StaleCopyIsIgnored` | src/central/controllers/agent-runtime-event-controller.ts:205-207 | A copy under any other lease, of a result not logged, changes neither log nor acknowledgements |
| `ResultDelivery.Drains` | sdk/edge-worker/src/edge-worker-runtime.ts:472-511 | From any reachable state, with the lease current and the turn accepted, one flush, one delivery and one acknowledgement log a queued result and remove it |
| `ResultDelivery.OutlivesItsLease` | sdk/edge-worker/src/edge-worker-runtime.ts:472-511 | A queued result outlives its lease: once its session is leased and assigned again under any lease and the turn accepted again, one flush, one delivery and one acknowledgement log it and remove it |
| `FloodFill.NeighbourOffsets` | sdk/edge-worker/src/analysis/led-indicator-analyzer.ts:184-187 | The four index offsets with their edge guards are exactly the lit 4-neighbours |
| `FloodFill.ComponentsPartition` | sdk/edge-worker/src/analysis/led-indicator-analyzer.ts:157-192 | Components of lit cells partition them |
| `FloodFill.FillFrom` | sdk/edge-worker/src/analysis/led-indicator-analyzer.ts:171-188 | One fill visits exactly the component of its start and sums exactly its cells |
| `FloodFill.LabelBlobs` | sdk/edge-worker/src/analysis/led-indicator-analyzer.ts:157-192 | The result is one blob per 4-connected component, in order of its lowest cell, with that component's count and sums |
| `FloodFill.OneBlobPerLitCell` | sdk/edge-worker/src/analysis/led-indicator-analyzer.ts:168-190 | Each lit cell lies in exactly one listed component |
| `FloodFill.BlobsCoverLitCells` | sdk/edge-worker/src/analysis/led-indicator-analyzer.ts:168-190 | The blobs' cell counts add up to the number of lit cells |
| `FloodFill.LargestBrightHotspot` | sdk/edge-worker/src/analysis/frame-analyzer.ts:219-245 | The hotspot scan returns the size of a largest component of near-white cells, 0 exactly if there is none |
| `Sampling.GridIsBounded` | sdk/edge-worker/src/analysis/frame-analyzer.ts:96-98 | For every frame size the sampled grid satisfies (sw-1)(sh-1) < 4 * maxSampledPixels |
| `Sampling.RequestHoldsIff` | sdk/edge-worker/src/analysis/frame-analyzer.ts:95-98 | The samples taken stay within the requested number exactly if the whole frame does, or the stride divides both edges and meets the request to the sample |
| `Sampling.RequestIsExceeded` | sdk/edge-worker/src/analysis/frame-analyzer.ts:95-96 | An instance where they do not: a 1000 by 1000 frame is sampled completely |
| `Sampling.Rounds` | sdk/edge-worker/src/analysis/frame-analyzer.ts:115-116 | The strided loop makes exactly the computed number of rounds |
| `Sampling.StatsAreExact` | sdk/edge-worker/src/analysis/frame-analyzer.ts:121-136 | Over the samples: extremes attained, thresholds counted |
| `Sampling.SumsAreExact` | sdk/edge-worker/src/analysis/frame-analyzer.ts:121-136 | The sums of samples and of their squares |
| `Sampling.LumaIsWeighted` | sdk/edge-worker/src/analysis/frame-analyzer.ts:120 | Luma lies between the darkest and the brightest channel, and weighs green before red before blue |
| `Sampling.SampleLuma` | sdk/edge-worker/src/analysis/frame-analyzer.ts:95-138 | The loop with one linear counter writes every grid cell once from the pixel it stands for, and tallies the whole grid |
| `LedDetection.SampleLit` | sdk/edge-worker/src/analysis/led-indicator-analyzer.ts:99-124 | The two-dimensional loop fills mask and channels of every cell, dark cells staying zero |
| `LedDetection.IndicatorIff` | sdk/edge-worker/src/analysis/led-indicator-analyzer.ts:114-117 | A sample is lit exactly if its brightest channel reaches the minimum and exceeds its darkest by the least share of itself |
| `LedDetection.LargeEnoughIff` | sdk/edge-worker/src/analysis/led-indicator-analyzer.ts:127-130 | A blob is large enough exactly with three cells and the least percentage of all cells |
| `LedDetection.TopIsLargest` | sdk/edge-worker/src/analysis/led-indicator-analyzer.ts:127-132 | What is reported: as many of the large enough blobs as asked for, largest first, each no more often than it was found, of each size the first ones in label order; nothing left out is larger than anything reported |
| `LedDetection.LargeFirstIsKnown` | sdk/edge-worker/src/analysis/led-indicator-analyzer.ts:127-132 | The stable descending order of the large enough blobs is the only descending list that holds of each size what was found, in label order |
| `LedDetection.Detect` | sdk/edge-worker/src/analysis/led-indicator-analyzer.ts:85-132 | From frame to blobs: the largest connected regions of indicator-coloured samples |
| `Frames.ClampIsExact` | sdk/edge-worker/src/analysis/frame-processing.ts:32-38 | Clamping keeps exactly the frame's pixels whose centre lies in the rectangle, its right and lower edge included, its left and upper edge not |
| `Frames.StoredMeanIsNearest` | sdk/edge-worker/src/analysis/frame-processing.ts:84-108 | A stored mean is a nearest whole number to the quotient, the even one of two equally near |
| `Frames.MeanOfBoxBetween` | sdk/edge-worker/src/analysis/frame-processing.ts:91-112 | Every channel of a box mean lies between the least and greatest of the box |
| `FrameProcessing.BoxesAbut` | sdk/edge-worker/src/analysis/frame-processing.ts:85-90 | Boxes start where the previous ends and none is empty |
| `FrameProcessing.BoxesPartition` | sdk/edge-worker/src/analysis/frame-processing.ts:85-90 | Every source line lies in exactly one box |
| `FrameProcessing.ScaledEdgeFits` | sdk/edge-worker/src/analysis/frame-processing.ts:81-83 | Scaled edges are at least 1, never grow, and the longest becomes maxEdge |
| `FrameProcessing.CropFrame` | sdk/edge-worker/src/analysis/frame-processing.ts:49-66 | The crop is the clamped area of the input; an empty area is an error; the input is not changed |
| `FrameProcessing.DownscaleFrame` | sdk/edge-worker/src/analysis/frame-processing.ts:72-114 | The result is the box-mean image; the input is not changed |
| `FrameProcessing.Fill` | sdk/edge-worker/src/analysis/frame-processing.ts:116-125 | In place, an area is recoloured and everything else, alpha included, is kept |
| `FrameProcessing.BlockStep` | sdk/edge-worker/src/analysis/frame-processing.ts:127-159 | A block's mean is over original pixels, as its pixels have not been touched when it is reached |
| `FrameProcessing.Pixelate` | sdk/edge-worker/src/analysis/frame-processing.ts:127-159 | In-place pixelation equals the out-of-place block means of the original |
| `ImageSharing.MaskRegions` | sdk/edge-worker/src/analysis/frame-processing.ts:166-179 | Masking applies the rectangles in order to a copy |
| `ImageSharing.BlackoutIsUnion` | sdk/edge-worker/src/analysis/frame-processing.ts:166-179 | Blackout recolours exactly the pixels covered by some rectangle |
| `ImageSharing.MaybeShareImage` | sdk/edge-worker/src/analysis/image-sharing.ts:58-97 | Nothing without policy, request, authorization and encoder; otherwise exactly the cropped, masked, downscaled frame reaches the encoder and the caller's frame is untouched |
| `ImageSharing.RedactionHides` | sdk/edge-worker/src/analysis/image-sharing.ts:68-87 | Frames that agree on alpha and on all colour outside the masks, within the crop, reach the encoder as the same image |
| `ImageSharing.RequestHides` | sdk/edge-worker/src/analysis/image-sharing.ts:74 | A request that does not ask for pixelation hides: frames that differ only under its masks or outside its crop reach the encoder as the same image |
| `ImageSharing.BlackUnderMasks` | sdk/edge-worker/src/analysis/image-sharing.ts:74 | Before downscaling such a request leaves black under the masks, with each pixel's own alpha, and the frame itself elsewhere |
| `ImageSharing.MosaicUnderMasks` | sdk/edge-worker/src/analysis/image-sharing.ts:74 | With pixelation each mask in turn lays the mean of its 12 by 12 blocks over what the ones before have left |
| `ImageSharing.SharedIsRedacted` | sdk/edge-worker/src/analysis/image-sharing.ts:69-81 | What is shared is the redacted crop, downscaled to the edge the request names, else the device's default, else 1024; nothing exactly if the crop is empty or that edge below one |
| `ImageSharing.DownscaledBetween` | sdk/edge-worker/src/analysis/frame-processing.ts:84-112 | Every pixel of a downscaled image lies within the bounds of its source box |
| `CanonicalJson.EscapeInjective` | src/central/managers/admission/delegate-admission-manager.ts:76-80 | An escaped string ends only at its closing quote and can be read back |
| `CanonicalJson.EscapeIs` | src/central/managers/admission/delegate-admission-manager.ts:76-80 | What stands for each unit of a string |
| `CanonicalJson.PrintIs` | src/central/managers/admission/delegate-admission-manager.ts:72-81 | How each kind of value is printed |
| `CanonicalJson.PrintDelimited` | src/central/managers/admission/delegate-admission-manager.ts:72-81 | No printed value continues another |
| `CanonicalJson.EqualTextSameValue` | src/central/managers/admission/delegate-admission-manager.ts:72-81 | Equal texts come only from the same value up to key order |
| `CanonicalJson.SameValueEqualText` | src/central/managers/admission/delegate-admission-manager.ts:72-81 | The same value prints the same whatever order its keys were inserted in |
| `CanonicalJson.PrintIsCanonical` | src/central/managers/admission/delegate-admission-manager.ts:68-81 | Two values print equally exactly when they are the same up to object key order |
| `ChannelNames.DecodeEncode` | src/central/adapters/web-pubsub-transport-adapter.ts:129-132 | Percent-decoding inverts percent-encoding |
| `ChannelNames.FromUtf8Iff` | src/central/adapters/web-pubsub-transport-adapter.ts:129-132 | Octets are read as a character exactly if they are its UTF-8 |
| `ChannelNames.EncodeHasNoColon` | src/shared/protocol/web-pubsub-runtime-channel.ts:26-31 | An encoded segment never contains the separator |
| `ChannelNames.MappersAgree` | sdk/client/src/web-pubsub-runtime-channel.ts:14-33 | The three mappers agree on the channels they share |
| `ChannelNames.GroupIsNamed` | src/shared/protocol/web-pubsub-runtime-channel.ts:4-31 | A channel has a group exactly if tenant and id are not empty, and this is its name |
| `ChannelNames.GroupsAreDistinct` | src/shared/protocol/web-pubsub-runtime-channel.ts:12-31 | Group names are injective over tenant and channel |
| `ChannelNames.UserIdReadsBack` | src/central/adapters/web-pubsub-transport-adapter.ts:129-165 | A principal is read back from its user id exactly when its connection id is absent or not empty |
| `ChannelNames.PartsMustDecode` | src/central/adapters/web-pubsub-transport-adapter.ts:129-165 | A user id with a connection is refused exactly if one of its parts cannot be decoded |
| `Observe.MergeIsExact` | sdk/client/src/agent-runtime-client.ts:548-589 | With live events delivered in order, repeated at will, from no later than the history read, what is emitted is the mapped log up to the last event received |
| `Observe.LiveOnlyIsExact` | sdk/client/src/agent-runtime-client.ts:554-572 | Without history it is the mapped log from where the subscription began |
| `Observe.Stream.OnHistory` | sdk/client/src/agent-runtime-client.ts:576-589 | History, then the backlog, through the same filter |
| `Observe.Stream.OnLive` | sdk/client/src/agent-runtime-client.ts:566-572 | Live events wait while the history is out and are emitted after it |
| `Observe.StreamRefinesLog` | sdk/client/src/agent-runtime-client.ts:548-604 | Whatever the interleaving of history read and live events, the consumer gets nothing before the history is in, then exactly the mapped log; without a history, not asked for or failed, exactly the mapped log from the subscription on |
| `Pairing.WritesNeverFail` | src/central/managers/case/case-pairing-manager.ts:306-354 | No compare-and-set of an invite or binding ever fails, because a case's operations do not overlap |
| `Pairing.RevisionsAdvance` | src/central/managers/case/case-pairing-manager.ts:205-215 | New invites and bindings have revision 1, and every write advances the revision of what it replaces by one |
| `Pairing.LiveAfter` | src/central/managers/case/case-pairing-manager.ts:197-204 | A case is live from its opening to its closing, whatever else happens |
| `Pairing.ReachableInv` | src/central/managers/case/case-pairing-manager.ts:167-220 | The pairing invariant holds through all interleavings across cases, closings and crashes |
| `Pairing.RedeemedOnce` | src/central/managers/case/case-pairing-manager.ts:179-208 | An invite is redeemed at most once |
| `Pairing.RedeemedWithSecret` | src/central/managers/case/case-pairing-manager.ts:176-215 | Whoever redeems an invite has begun with the secret it was made with, in time, while its case was live, for the device that then gets the credential |
| `Pairing.RedeemBeginsIff` | src/central/managers/case/case-pairing-manager.ts:182-204 | A redeem with another secret, too late, of a used invite or on a closed case leaves everything as it is |
| `Pairing.LatestWasIssued` | src/central/managers/case/case-pairing-manager.ts:205-221 | The credential stored for a device was issued to that device, by a redeem of an invite of its own case |
| `Pairing.LatestCredentialOpens` | src/central/managers/case/case-pairing-manager.ts:227-256 | A credential opens exactly if it is that of the device's latest redeem, the binding is active and the case is open |
| `Pairing.LetInByInvite` | src/central/managers/case/case-pairing-manager.ts:231-262 | Whoever is let in holds a credential issued to that device by a redeem that began with an invite's secret, in time, while the case was live |
| `Pairing.SweptStaysSwept` | src/central/managers/case/case-pairing-manager.ts:378-392 | After a revocation begun on a closed case completes, none of its devices is ever active again |
| `Sidecar.Daemon.HandleAssign` | src/sidecar/sidecar-daemon.ts:181-251 | An assignment starts a fresh run and forgets the session's completed pauses |
| `Sidecar.Daemon.InputResumes` | src/sidecar/sidecar-daemon.ts:270-284 | Each turn reaches the agent at most once per assignment; a repeat is accepted again or rejected as a conflict |
| `Sidecar.Daemon.ToolResponse` | src/sidecar/sidecar-daemon.ts:410-431 | A request is answered once per run: it is refused exactly for an unknown session or a stale lease, ignored exactly when answered before |
| `Sidecar.Daemon.InteractionEnds` | src/sidecar/sidecar-daemon.ts:401-407 | Each interaction response is taken by the agent at most once per assignment |
| `Sidecar.Daemon.HandlePause` | src/sidecar/sidecar-daemon.ts:451-472 | A pause in flight is waited for, a completed one is published again as it was; since its session's last assignment every publication of a pause is the same |
| `Sidecar.Daemon.PauseCompletes` | src/sidecar/sidecar-daemon.ts:473-493 | A run is stopped and captured at most once; its result is what later pauses repeat |

## Left out

- DelegationManager.Apply: the text of errors and of a close reason's message, and the parent's and child's session
  records around it; the child's turn counter read before an activation is a parameter.
- DelegationManager.AppendCall: two overlapping starts under one caller key may both append, because the key is looked
  up again only after a failed compare-and-set; uniqueness of caller keys is stated in `Redrive`, for passes that do not
  overlap.
- Redrive.Central.StartCall: parent permissions, the delegate registry and the roster check of the target are two
  boolean parameters. Stability of a close reason is not claimed, since a later terminal close may overwrite it.
- Redrive.Central.DispatchNext: nothing is claimed about progress after an error, since a failed promise stays at the
  head of the dispatcher's chain; the child's turn counter may repeat after a crash between input append and turn
  acceptance.
- FanoutDrive.Driver.Progress: resuming a paused child and publishing worker commands are left out, as are the texts of
  startup failures; an outcome is recorded in the
  group at hand rather than in the one a search by call finds first, and delivery is tried once, at the end of the pass.
- Fanout.AggregateIsHonest: a completed device's observation is the raw result text; parsing it as JSON is left out.
- FanoutDrive.OneCallPerDevice: the statement is per request; `FanoutDrive.CallsMeetIff` says when two requests meet.
- SessionLog.RunKeeps: the tail of a `session.paused` event (snapshot marker, pause transition) is not guarded against
  repeats in the code and is left out, as are the terminal hook and publication to clients beyond whether it happens.
- EdgeWorker.Worker.HandleInput: waiting for the agent's start, and the agent itself, are left out.
- ResultDelivery.ExactlyOnce: the queue store is durable; with the in-memory store a reload loses results. Discarding on
  pause and on re-registration is one step per session.
- Sampling.SampleLuma: the colour sums, saturation, Laplacian variance and the scores computed from them have no exact
  specification.
- LedDetection.Detect: colour classification, rounding of the reported percentages and centroids, and the summary text.
- FrameProcessing.DownscaleFrame: frames without pixels and fractional `maxEdge`; scaling is exact rather than in
  floating point. Rectangles are real numbers, so NaN and infinities are not covered.
- ImageSharing.RedactionHides: blackout only; block means of pixelation depend on what they hide.
- CanonicalJson.PrintIsCanonical: a number is the text it prints as, so that NaN, infinities and negative zero, which
  print like other values, are not told apart; `undefined` is no JSON value. Hashing is left out.
- ChannelNames.GroupsAreDistinct: strings are sequences of Unicode scalar values; for an unpaired surrogate
  `encodeURIComponent` throws.
- Observe.StreamRefinesLog: the mapping of one event is any function; aborting, and a history read that fails midway
  through an iteration, are left out.
- Pairing.ReachableInv: modelled as steps on values, since operations on different cases interleave at every await;
  expiry is a parameter, and size limits and the roster view are left out.
- Sidecar.Daemon.HandleAssign: no assignment of a session arrives while one of its pauses is in flight; ids contain no
  colon, so that a pause is known by session and lease; starting, restoring and capturing are the adapters' business.
- Target specs of a tool call (`resolveTargetSpec`, `targetSpecEquals`) and delivery of await responses would only add
  case analysis.
- Browser UI, HTTP routes, Docker, Foundry and Copilot adapters, the message-bus client, environment and configuration,
  and the managers for workers, pools, leases, interactions and snapshots are I/O around these cores.
- Concurrent writers of one session record are left out: session writes are not compare-and-set, and the per-session
  append chain is taken to be the only writer.
