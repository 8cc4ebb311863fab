# Verified model of the ouija daemon's session and delivery protocols

ouija is a daemon that holds the authority over coding-agent sessions: which
session exists, which incarnation of it is current, which backend session it
is bound to, what it still owes to others and which prompts wait for it. This
project models the protocols behind that authority and proves what they keep.
Regions the daemon runs under one lock are atomic steps; everything between two
locks may interleave. Objects the daemon updates in place are classes whose
methods are proved against functions on values, and the lemmas about those
functions carry the results.

- **Sends and reply obligations** (`Entries`, `SendState`, `FailedSend`,
  `SendLedger`, `ObligationRuns`, `Delivery`, `Daemon`). A send captures,
  applies, captures again and reserves under one lock, delivers with no lock
  held, and then finalizes under one lock or rolls back under two. For every
  interleaving of sends, remote replies, clears, removals, renames, saves and
  restarts, an obligation is outstanding exactly when an ask created it and
  nothing since discharged it. For every single failed send it is stated exactly
  when it leaves no trace.
- **Lifecycle snapshot** (`Snapshot`, `Authority`, `LoadSave`). The validator's
  loops accept exactly the snapshots in which no backend session has two
  owners, in any iteration order, and every rejection names a defect that is
  there. Whatever loads is saved as a file that loads as itself.
- **Queued prompts** (`PromptSlots`). Readiness signals, fallback timers and
  retry chains share one slot a session. Every copy of a prompt is accounted
  for; it is delivered at most as often as it was queued, and a signal to a
  current session delivers it.
- **Session registry** (`SessionRow`, `BackendBinding`, `Lifecycle`,
  `Adoption`). Rows are started, registered, staged, bound, recovered, rebound,
  adopted, rolled back, renamed, removed and announced by other daemons. For
  every step it is stated exactly when issued incarnations stay apart and when
  one backend session keeps one live owner; and the adoption of an unbound row
  finds out exactly whether anything happened to it since discovery, unless
  another row can pass for it.
- **Saving and starting again** (`Durable`, `DaemonRuns`, `Incarnations`). What
  the validator says of a snapshot is a property of the registry it was written
  from, and every step says exactly when it keeps that property. Over runs with
  saves, crashes and reloads it is stated exactly when a number some snapshot
  recorded can be issued again.
- **Repairs** (`Repairs`). A repair coordinator that failed releases its own
  reservation and no other, and for every step it is stated exactly when it
  leaves a session that can be neither repaired nor launched.
- **Session end and compaction** (`SessionEnd`, `CompactSlot`). A hook names at
  most one local row over runs with crashes, and a late one is harmless; a
  parked continuation is never overwritten and is injected at most once.
- **Text and paths** (`ProjectPath`, `Utf8Preview`, `HtmlEscape`).

## What the code does not do

Each of these has a lemma at a failing input and the exact condition under
which the intended property holds.

- A failed send restores the sender exactly when the message id tells the
  answered entry apart (`FailedSend.FailedSendIsNoOp`). Ids are promised unique
  (README.md:157), but an ask that arrives over the wire keeps the sender's id
  (src/daemon_protocol.rs:5658-5875), so two askers can use one id
  (`FailedSend.CollidingIdsLoseAnObligation`).
- Finalizing goes by the name the sender had when the send began. A final reply
  discharges the obligation it answers exactly when the owner has that name on
  delivery; renamed meanwhile, and not back, it still owes
  (`ObligationRuns.RenamedSenderStillOwes`, `ObligationRuns.NameDecidesDischarge`,
  `ObligationRuns.RenamedBackDischarges`).
- The event discharges an obligation only for a reply addressed to the asker;
  finalizing goes by the captured id alone, so a reply to somebody else
  discharges it too (`SendLedger.MisaddressedReplyDischarges`,
  `SendLedger.MisaddressedReplyIff`).
- The session-end lookup does not look at a row's origin. A row announced by
  another daemon with the same backend session and incarnation can be found in
  place of the session, whose end is then skipped
  (`SessionEnd.AnnouncementHidesTheEnd`, `SessionEnd.EndingIsSureIff`,
  `SessionEnd.LookupIsUniqueIff`).
- Registration, rename and the naming of people refuse a slash in a name, a
  start does not; an announcement under such a name rewrites a local row,
  incarnation included. Two sessions can then carry one incarnation
  (`SessionEnd.SlashNameIsCaptured`, `Lifecycle.CaptureIsNumberedIff`,
  `Lifecycle.PlainNamesStay`), and a number that is saved can be handed out
  again: exactly when such an announcement writes one above the mark
  (`Incarnations.AnnouncedNumberIsReissued`,
  `Incarnations.UnboundedAnnouncementIsReissued`, `Incarnations.StepIsSafeIff`,
  `Incarnations.NeverReissuedIff`).
- An incarnation handed out after the last save is handed out again after a
  crash (`SessionEnd.NeverBackIff`).
- A restart that resumes its session, or that repairs one with half a pair,
  saves the row it would fall back to beside the new one, and the validator
  refuses the two. If the daemon dies before the restart's lease ends, the next
  one does not start (`Durable.ResumedRestartCannotReload`). The same holds
  while another session has bound what such a row holds
  (`Durable.BothBoundCannotReload`, `Durable.BindingMissesIncumbents`). The exact
  condition for every step is `Durable.StepIsLoadableIff`.
- Legacy rows all carry incarnation 0, and adoption takes one for another
  exactly when another blank one is there at discovery and the candidate's name
  can be given to it (`Adoption.CandidateIsMistakenIff`,
  `Adoption.AdoptionDetectsInterference`).
- A restart rollback, a scheduled restart that resumes under another backend,
  the final metadata of a launch, and an announcement under the name of a local
  row write a pair without asking whether it is free
  (`Adoption.RollbackCanShareASession`, `Adoption.ScheduledLaunchCanShareASession`,
  `Adoption.StepIsExclusiveIff`).
- A repair whose restart is superseded before staging leaves its reservation in
  the row, at once, or once the restart that superseded it ends; and so does one
  whose recovery lease is retained and later rolled back. From then on every
  repair and every launch of the session is refused until the row is replaced or
  removed or the daemon is restarted (`Repairs.RepairsCanGetStuck`,
  `Repairs.StuckStays`, `Repairs.RestartFrees`). The exact condition for every
  step is `Repairs.StepWedgesIff`.
- A repair is meant to be reported bound when its own launch, and no later one,
  was bound. What decides is how many launches the row in place has behind it: a
  rollback takes launches back, and others may then make up the number
  (`Repairs.RolledBackLaunchesDoNotCount`, `Repairs.ReportFollowsLaunches`,
  `Repairs.StagingsAreLaunches`).
- The report that a repaired launch is waiting for its session start is never
  made: the reservation in the row is staged by then and no longer equals the
  copy it is compared with (`Repairs.PendingIsNeverReported`).
- The rollback of a failed compaction discards whatever the slot holds, which
  can be the continuation of a later request that succeeded
  (`CompactSlot.RollbackCanTakeAnother`, `CompactSlot.RollbackSparesOthersIff`).
- Normalizing a path twice fails when the first result is the root, which
  happens for a path such as `/..` (`ProjectPath.NormalizingAgain`,
  `ProjectPath.NormalizingCanReachTheRoot`).

## Model

| member | source | states |
|---|---|---|
| Entries.MarkProgressFind | src/daemon_protocol.rs:6084-6331 | putting the captured entry back undoes a progress mark exactly when that entry is the one the mark touched; otherwise it was left alone |
| Entries.MarkProgressMultiset | src/daemon_protocol.rs:6084-6331 | a progress mark changes a bucket unless nothing matches or the first match carries the mark already |
| SendState.SendReports | src/daemon_protocol.rs:6084-6331 | a send reports exactly one of failure and delivery, and a delivery names the recipient, the fresh id and the sender |
| SendState.NothingLeftToAppend | src/api.rs:1052-1129 | a rollback that reserved nothing left an entry with the captured id in place, so its append branch is unreachable |
| SendState.RestoreKeepsReminders | src/api.rs:1082-1129 | in any later state the second lock of a rollback changes no session row, so no reminder cleared meanwhile comes back |
| SendState.RestoreNeverResurrects | src/api.rs:1082-1129 | in any later state a rollback adds no message id to a bucket that does not hold it |
| SendState.FinalReplyDischarges | src/api.rs:1131-1150 | in any later state a delivered final reply to a captured obligation removes its id and the sender's reminder, and nothing else |
| SendState.BeginKeepsSessions | src/api.rs:1052-1079 | the first lock of a send leaves every session row as it was, because the reminder it takes is put back until delivery is decided |
| SendState.DeliveryClearsReminder | src/api.rs:1131-1150 | in any later state, whether or not an entry was captured, delivering a message that is done clears its sender's reminder and no other field of any row; one that is not done changes nothing |
| SendState.SendGoesOut | src/daemon_protocol.rs:6084-6331 | a routed message goes first, to its recipient, typed, posted, broadcast or sent to a key as the recipient's row says, and the log and the delivery record name the same way |
| SendState.AskIsAnswerable | src/daemon_protocol.rs:6084-6331 | only an ask carries a reply id; it is the id of the obligation it opens, and a final reply under it leaves the recipient owing what it owed before |
| FailedSend.FailedSendIsNoOp | src/api.rs:999-1129 | a failed send changes no session row, leaves no empty bucket, and leaves every session's obligations as they were if and only if the ids involved are unambiguous in the two buckets |
| FailedSend.SenderBucketAfterFailure | src/api.rs:1082-1129 | what any failed send makes of the sender's bucket |
| FailedSend.OtherBucketAfterFailure | src/api.rs:1152-1173 | a failed send removes from the recipient's bucket only what matches both its id and its sender, and touches no third bucket |
| FailedSend.FinalReplyBucket | src/api.rs:1052-1129 | a failed final reply restores the bucket if and only if the answered entry is the only one with its id, or there was none |
| FailedSend.ProgressReplyBucket | src/api.rs:1082-1129 | a failed progress reply restores the bucket if and only if the answered entry is the first with its id, carries the mark already, or there was none |
| FailedSend.CollidingIdsLoseAnObligation | src/daemon_protocol.rs:5658-5875 | with one id used by two askers a failed final reply loses an obligation |
| SendLedger.StepLedger | src/api.rs:859-1173 | every step of every send, reply, clear, removal and update keeps ids distinct and moves the set of outstanding obligations exactly by what it creates and discharges |
| SendLedger.SendStep | src/api.rs:859-874 | the first lock of a send opens the recipient's obligation and keeps all of the sender's, reserved ones included |
| SendLedger.DeliverStep | src/api.rs:1131-1150 | finalizing discharges the captured id of the sender and nothing else |
| SendLedger.RejectStep | src/api.rs:1152-1173 | the first lock of a rollback withdraws exactly the obligation the failed ask created |
| SendLedger.RestoreStep | src/api.rs:1082-1129 | the second lock of a rollback neither opens nor discharges an obligation, whatever happened in between |
| SendLedger.MisaddressedReplyIff | src/api.rs:1131-1150 | with distinct ids a delivered final reply discharges an obligation to someone other than its addressee if and only if the entry with that id is not the addressee's |
| SendLedger.MisaddressedReplyDischarges | src/api.rs:1131-1150 | w owes an answer to a, replies to b, and owes a no more |
| SendLedger.SendCanEnd | src/api.rs:859-999 | a send can be delivered if and only if it was routed, and any can be rejected |
| SendLedger.SendEndsOnce | src/api.rs:859-1173 | a delivery, or the two locks of a rollback in their order, end a send for good and leave every other send as it was |
| ObligationRuns.ActMovesLedger | src/daemon_protocol.rs:4500-4518 | every step, rename, save and restart keeps ids distinct, and an obligation stands after it if and only if the step created it, or carried it over from the name and place it had and did not discharge it |
| ObligationRuns.LedgerIsExact | src/api.rs:859-1173 | over every run of interleaved sends, renames, saves and restarts an obligation is outstanding if and only if it was there or an ask created it and nothing since discharged it, under whatever name its owner had then |
| ObligationRuns.DischargedStaysAway | src/api.rs:1131-1150 | what a delivered final reply or any other step discharged stays away through every rename unless it is asked again |
| ObligationRuns.RenamedSenderStillOwes | src/daemon_protocol.rs:4500-4518 | in any later state finalizing after a rename of the sender discharges nothing of the moved bucket |
| ObligationRuns.NameDecidesDischarge | src/api.rs:1131-1150 | over every run, when a final reply is delivered an obligation with the answered id is discharged if and only if its owner then has the name the reply was sent under |
| ObligationRuns.RenamedBackDischarges | src/daemon_protocol.rs:4500-4518 | renamed away and back while the reply is on its way, the sender is discharged after all |
| ObligationRuns.SavedObligationsSurvive | src/main.rs:1776-1788 | a daemon that dies right after a save owes what it owed before for every session that comes back |
| ObligationRuns.RenameMovesHints | src/daemon_protocol.rs:4360-4420 | a rename makes its old name, and every name that led to either of its two, lead to the new one, and changes no other hint |
| ObligationRuns.EveryNameIsHinted | src/daemon_protocol.rs:4360-4420 | over any chain of renames whoever writes to a name the session had is told the name it has now |
| Delivery.ExecuteSendEffects | src/api.rs:1175-1293 | the outcome is the first of the greatest severity among the answers, and a log record says delivered only if every earlier delivery was accepted |
| Delivery.CombineKeepsFirstWorst | src/api.rs:1295-1319 | combining keeps the leftmost of the greatest severity: Rejected over Ambiguous over Queued over Accepted |
| Delivery.FirstWorstIsUnique | src/api.rs:1295-1319 | there is one such outcome for any list of answers |
| Delivery.SendLogsItsOutcome | src/api.rs:1175-1293 | for the effects of a routed send the one message logged is recorded as delivered if and only if the send reports plain acceptance |
| Delivery.RecipientDecides | src/api.rs:1175-1293 | a routed send reports what the transport said about a local recipient, and plain acceptance for any other |
| Daemon.DaemonState.NextSeq | src/daemon_protocol.rs:2012-2015 | a fresh id, one above the last |
| Daemon.DaemonState.ApplySend | src/daemon_protocol.rs:6084-6331 | the send event in place equals the specification, state and effects |
| Daemon.DaemonState.ClearPendingReplyFrom | src/daemon_protocol.rs:2354-2366 | clears one asker's entries from one bucket, and reports zero if and only if there were none |
| Daemon.DaemonState.ClearOrphanedReplies | src/daemon_protocol.rs:2368-2377 | visiting the buckets in any order, drops exactly what removed sessions owe or are owed, and empty buckets |
| Daemon.FailedSendRollback.Capture | src/api.rs:1000-1026 | records the entry and reminder the reply may take |
| Daemon.FailedSendRollback.CaptureAfterSend | src/api.rs:1028-1050 | records what the event left of them |
| Daemon.FailedSendRollback.ReserveSenderState | src/api.rs:1052-1075 | puts back what a final reply took, until delivery is decided |
| Daemon.BeginSend | src/api.rs:859-874 | the first lock of a send in place equals the specification |
| Daemon.ClearPendingReplyForFailedDelivery | src/api.rs:1152-1173 | the first lock of a rollback in place equals the specification |
| Daemon.RestoreSenderState | src/api.rs:1082-1129 | the second lock of a rollback in place equals the specification |
| Daemon.FinalizeSuccessfulDelivery | src/api.rs:1131-1150 | discharges the captured obligation, and clears the sender's reminder if the message is done, whether or not an obligation was captured; every other row and field is as it was |
| Daemon.SendMessage | src/api.rs:764-976 | a whole send: refusals change nothing, a send fails exactly when it cannot be routed or a local recipient's transport rejects it, and only a delivered message that is done changes a session row, clearing its sender's reminder |
| Snapshot.RestartIsExclusive | src/persistence.rs:285-351 | in every accepted snapshot a restart that claims a backend session claims it for a strictly newer owner, and no incumbent, live or dormant row of another owner holds it |
| Authority.ValidateSessionAuthority | src/persistence.rs:389-523 | accepts if and only if the snapshot is authorized, in any order of its maps; a rejection names a defect that is there |
| Authority.JustifiedRefutes | src/persistence.rs:389-523 | a snapshot with a nameable defect is not authorized |
| Authority.ClaimPair | src/persistence.rs:407-428 | adds a claim or names the other owner of the same backend session |
| Authority.ClaimLiveRows | src/persistence.rs:434-465 | collects the claims of live rows, or names a duplicate id or a second owner |
| Authority.CheckDormant | src/persistence.rs:467-493 | accepts a dormant row if and only if it agrees with itself |
| Authority.ClaimDormantRows | src/persistence.rs:467-493 | collects the claims of dormant rows, or names the first defect met |
| Authority.ClaimLeases | src/persistence.rs:495-523 | collects the claims of leases and incumbents; then all claims have one owner each |
| Authority.CheckLease | src/persistence.rs:247-363 | accepts a lease if and only if it holds what its phase may hold |
| Authority.CheckLeases | src/persistence.rs:247-363 | accepts the leases if and only if each is coherent, in any order |
| LoadSave.NormalizedIsLeastBound | src/persistence.rs:106-168 | the normalized mark is the least number below neither the old mark nor any incarnation in live rows, dormant rows and the six places of a lease |
| LoadSave.NormalizeTwice | src/persistence.rs:106-168 | normalizing is idempotent |
| LoadSave.MigrateLegacyProjectIdentities | src/persistence.rs:369-387 | a row with a usable, identified directory and no canonical project gets that project's directory and repository, each in its place; nothing else of any row changes |
| LoadSave.LoadSessions | src/persistence.rs:213-367 | accepts exactly the files whose snapshot is current, authorized and coherent; legacy and version 1 rows are loaded in order and migrated, version 1 with nothing dormant, version 2 as they are, and the two plain errors exactly for the files they name |
| LoadSave.FixedPoints | src/persistence.rs:213-367 | a snapshot loads as itself if and only if it is current, acceptable and normalized |
| LoadSave.LoadedIsFixed | src/persistence.rs:213-367 | whatever loads is current, acceptable and normalized |
| LoadSave.LoadSaveLoad | src/persistence.rs:530-532 | whatever loads, from any format, is saved as a file that loads as the identical state on any later file system |
| Incarnations.Allocator.Restore | src/daemon_protocol.rs:2019-2021 | restoring never lowers the mark |
| Incarnations.Allocator.Allocate | src/daemon_protocol.rs:2023-2028 | a number above the mark, or none when all 64 bits are used up |
| Incarnations.StepNumbers | src/persistence.rs:106-168 | a snapshot after a step records nothing but what one before it would, the number the step issued, and what an announcement wrote into a local row |
| Incarnations.StepIsSafeIff | src/persistence.rs:79-168 | every step, save and reload keeps the marks in memory and on disk above everything ever saved, except that an announcement on a local row does if and only if it writes no number above the mark |
| Incarnations.StartIsSafe | src/main.rs:1756-1788 | a daemon that starts from what it loads satisfies the invariant of all later runs |
| Incarnations.NeverReissuedIff | src/daemon_protocol.rs:2019-2028 | over every run of lifecycle work, saves, crashes and reloads whose announcements on local rows write no number above the mark, no number some snapshot recorded is issued again, if and only if the marks are above what was recorded and saved at the start |
| Incarnations.UnboundedAnnouncementIsReissued | src/daemon_protocol.rs:5886-5900 | after one announcement above the mark on a local row, some run issues a number that a snapshot recorded |
| Incarnations.AnnouncedNumberIsReissued | src/api.rs:3036-3063 | such a run from an empty daemon: a start under n/x, an announcement of n/x with 2, a save, and a start of y that takes 2 |
| Durable.AcceptableIffLoadable | src/persistence.rs:389-523 | the validator accepts the snapshot of a registry if and only if no lease has half a pair and one incarnation of one session claims each backend session, live, dormant, leased or to fall back to |
| Durable.RestartsIffLoadable | src/state.rs:6611-6640 | then and only then the saved file loads, as that very snapshot, on any file system |
| Durable.NumbersAgree | src/persistence.rs:106-168 | the snapshot records exactly the registry's incarnations, and its mark is the greater of the registry's and theirs |
| Durable.SnapshotExists | src/state.rs:6611-6640 | every registry in shape can be written |
| Durable.WriteIsLoadableIff | src/persistence.rs:406-430 | replacing a row keeps the snapshot acceptable if and only if what it holds is claimed by no other owner |
| Durable.StepIsLoadableIff | src/persistence.rs:389-523 | every step keeps the snapshot acceptable if and only if what it writes is claimed by no other owner and what it sets aside is a whole pair; steps that only give up or move claims always do |
| Durable.ResumedRestartCannotReload | src/daemon_protocol.rs:3610-3713 | from every acceptable state a restart that resumes, or that is staged over half a pair, writes a snapshot that does not load, until its lease ends |
| Durable.BindingMissesIncumbents | src/daemon_protocol.rs:5099-5261 | a bind the daemon allows keeps the snapshot acceptable if and only if no staged restart would fall back to a row with that session |
| Durable.BothBoundCannotReload | src/daemon_protocol.rs:5099-5261 | what is saved between the bind and the rollback of that run does not load |
| PromptSlots.PromptTable.Queue | src/nostr_transport.rs:6824-6848 | the newest prompt takes the slot |
| PromptSlots.PromptTable.Take | src/api.rs:3412-3420 | takes the prompt out, or finds none |
| PromptSlots.PromptTable.ReserveIfMatches | src/api.rs:3645-3661 | a retry takes only a prompt it recognizes |
| PromptSlots.PromptTable.RestoreIfAbsent | src/api.rs:3770-3779 | a restore never overwrites a prompt queued meanwhile |
| PromptSlots.WorkMovesOnePrompt | src/api.rs:3412-3779 | each step of a worker moves at most the one prompt in its hands, to a stated place |
| PromptSlots.AtMostOnceDelivery | src/api.rs:3412-3779 | over every interleaving the deliveries of a prompt, possible ones included, plus its copies in slots and in hands never exceed the times it was queued |
| PromptSlots.AttemptsAreBounded | src/api.rs:3586-3643 | over every interleaving at most one HTTP attempt a readiness signal and at most four raw attempts a signal or handover |
| PromptSlots.SignalDelivers | src/api.rs:3412-3586 | from every state with a prompt in the slot a readiness signal takes it out, and delivers it once if the session is current: typed if it has no HTTP binding, posted if it has, typed after a refused post |
| PromptSlots.TimerDelivers | src/nostr_transport.rs:6824-6980 | a prompt handed over and still in its slot when its timer wakes is delivered then if the session is current |
| PromptSlots.HeldPromptCanBeDelivered | src/api.rs:3412-3779 | from every stage of a worker some run delivers the prompt in its hands, unless a newer one holds the slot it has to go back to |
| PromptSlots.SignalSparesStrangers | src/api.rs:3425-3470 | a prompt whose pane has moved on goes back to its slot untried, and one whose session was replaced is dropped |
| PromptSlots.ReplacedIsDropped | src/api.rs:3500-3586 | a check that finds the session replaced drops the prompt and ends the chain |
| PromptSlots.FourAttemptsAreMade | src/api.rs:3586-3643 | the bound is attained: a chain whose injections all fail makes exactly four raw attempts, three if its first delivery failed elsewhere, and leaves the prompt in its slot |
| PromptSlots.WorkSpendsBudget | src/api.rs:3586-3643 | each attempt uses up budget and each step of a worker lowers its rank |
| PromptSlots.ChainTerminates | src/nostr_transport.rs:6903-6980 | no retry chain goes on for ever |
| SessionRow.FreshLaunchCompletes | src/daemon_protocol.rs:3999-4060 | a fresh launch ends in the same row whether its session is bound before or after its final metadata is in: next generation, its own incarnation and credential used up, the reported pair, the metadata's pane and project, no repair |
| SessionRow.ResumedLaunchCompletes | src/daemon_protocol.rs:3610-3713 | a launch that resumes keeps session and credential whatever its final metadata carries |
| SessionRow.UnpendingLaunchTakesMetadata | src/daemon_protocol.rs:3999-4060 | with nothing bound or pending the final metadata is taken as it is, but for incarnation, generation and repair, which a complete pair of this generation ends |
| SessionRow.OnlyStagedRepairsComplete | src/daemon_protocol.rs:5215-5235 | a bind ends a repair if and only if it was staged for this generation, and only the repair that made a reservation may stage over it |
| SessionRow.OwnSessionFirst | src/nostr_transport.rs:3304-3318 | a launch resumes the row's own session before a detected one, and neither afresh or under another backend |
| BackendBinding.Discover | src/api.rs:5255-5316 | chooses the one unbound row of a directory, as it is |
| BackendBinding.AmbiguityIsRefused | src/api.rs:5122-5137 | a candidate is chosen if and only if there is exactly one |
| BackendBinding.DiscoverFindsTheOnlyBlank | src/api.rs:5255-5316 | a candidate is chosen if and only if it is the only local row of that directory with neither half of a pair and no launch pending |
| BackendBinding.AvailableIff | src/daemon_protocol.rs:2661-2761 | a pair is open to a row if and only if no stop or other owner's operation has the session, no other operation its pane, pair, directory or project, and no other local or dormant row the pair |
| BackendBinding.BindingUsesItsLaunchUp | src/daemon_protocol.rs:5099-5261 | a bind needs the credential of the pending launch and uses it up, so no second report of that launch binds the row again |
| BackendBinding.AdoptionComparesAndCommits | src/api.rs:5330-5366 | on any registry the commit changes something if and only if the discovered row is there, blank and of the same incarnation, and neither a holder of the session nor a lease of another owner stands in the way; and then that row's pair alone |
| BackendBinding.RowChangeIsExclusiveIff | src/daemon_protocol.rs:5099-5355 | replacing a row keeps one owner for each backend session if and only if what it holds is free |
| BackendBinding.RegistryState.ReserveRepair | src/api.rs:4197-4240 | the reservation made, or the reason for refusing and nothing changed |
| BackendBinding.RegistryState.TerminalizeFailedRepair | src/api.rs:4116-4137 | releases a reservation of this incarnation and generation, in either phase |
| BackendBinding.RegistryState.ClassifyRepair | src/api.rs:4139-4180 | each report is made exactly when the row's generation, pair and reservation say so; a failed restart releases its own reservation and nothing else changes |
| BackendBinding.RegistryState.DiscoverCandidate | src/api.rs:5255-5316 | collecting candidates in any map order chooses the same one |
| BackendBinding.RegistryState.CommitAdoptionIfUnchanged | src/daemon_protocol.rs:5263-5355 | the commit in place changes the registry if and only if the row is as it was discovered and nothing obstructs the pair, and then fills in that row's pair and clears its credential |
| Lifecycle.StepRecords | src/daemon_protocol.rs:2023-2119 | what a step records for an id was recorded for it, was recorded for the row renamed to it, is a new number, or is what an announcement writes into a local row |
| Lifecycle.StepIsNumberedIff | src/daemon_protocol.rs:2023-2119 | every step keeps leases in shape, and keeps issued incarnations apart, below the mark and above the row a restart would fall back to, if and only if it is not a disorderly announcement on a local row |
| Lifecycle.CaptureIsNumberedIff | src/daemon_protocol.rs:5886-5900 | an announcement that rewrites a local row keeps incarnations in order if and only if it writes one that is none of another session's, not beyond the mark and newer than what the row stands over |
| Lifecycle.PlainNamesStay | src/api.rs:3036-3063 | while no local name has a slash no announcement reaches a local row, and only a start can give one such a name |
| Lifecycle.StepSparesOthers | src/daemon_protocol.rs:2121-2205 | every step leaves the rows, dormant rows and leases of names it does not name as they were |
| Lifecycle.WhatIsEndedIsGone | src/daemon_protocol.rs:4500-4518 | removed, retired and forgotten rows and ended leases are gone, and a rename carries its row over unchanged and drops a dormant one of that name |
| Lifecycle.PairsAreWritten | src/daemon_protocol.rs:5357-5486 | recovering and rebinding write exactly the pair, into a row with nothing pending: one into a blank row, the other under the backend the row has |
| Lifecycle.RegisteringKeepsThePair | src/daemon_protocol.rs:3330-3440 | registering a session again neither binds nor unbinds it, and gives it a new incarnation |
| Lifecycle.AnnouncingKeepsOriginAndPane | src/daemon_protocol.rs:5877-5911 | an announcement leaves a row its origin and pane and gives it the wire's other fields; a row it brings is foreign and has no pane |
| Lifecycle.LeasesSayWhatWasSaid | src/daemon_protocol.rs:2121-2205 | an operation is claimed for the row in place with nothing staged, a stop with the row's pair, pane and project; what is recorded later changes nothing else |
| Lifecycle.OneOperationAtATime | src/daemon_protocol.rs:2121-2205 | while a session's lease is held nothing else starts, registers, recovers, claims, renames or retires it, only a stop removes it, and a stop keeps launches and pairs from it |
| Lifecycle.ForeignRowsAreLeftAlone | src/daemon_protocol.rs:5877-5911 | a row of another origin is changed by announcements or replaced by a registration, and by nothing else |
| Lifecycle.NumbersEnd | src/daemon_protocol.rs:2023-2028 | what is handed out is above the mark and has 64 bits, and nothing is when they are used up |
| Lifecycle.NamesAreTakenOnce | src/daemon_protocol.rs:4440-4494 | starts, recoveries and renames go only to names no row has, and renames and registrations only to plain ones |
| Lifecycle.RecordsAreNotReplaced | src/daemon_protocol.rs:2121-2180 | a lease's project stays once recorded, its backend session until it is cleared, and its pane is recorded for its owner or target |
| Lifecycle.IdleSessionIsManageable | src/daemon_protocol.rs:4440-4620 | a session with nothing in progress can be restarted, removed, retired, finalized and renamed to any free plain name, and stopped if it has a pane |
| Lifecycle.RolledBackRestartLeavesNoTrace | src/daemon_protocol.rs:3941-3997 | a restart that is claimed, staged and rolled back leaves the registry as it was but for the number it used |
| Lifecycle.StartAddsItsRow | src/daemon_protocol.rs:2023-2119 | a start that is reserved, committed and ended adds its row, and one that comes to nothing only uses a number |
| Lifecycle.RetiredComesBack | src/daemon_protocol.rs:2661-2761 | after a recoverable session ends it can be recovered under its own pair, and then nothing but its row has changed |
| Lifecycle.RecoveredHoldsAlone | src/daemon_protocol.rs:2661-2761 | the recovered row holds its pair alone |
| Adoption.StagingIsExclusiveIff | src/nostr_transport.rs:3304-3318 | staging a launch keeps one owner for each backend session, because it resumes only under the backend its row has; a scheduled one, which need not, does if and only if the pair it makes is free |
| Adoption.ScheduledLaunchCanShareASession | src/scheduler.rs:1422-1445 | a schedule that names another backend gives its session a pair that another session holds |
| Adoption.StepIsExclusiveIff | src/daemon_protocol.rs:5099-5486 | every step, binding, adopting, recovering and rebinding included, keeps one owner for each backend session, except that staging a scheduled launch, finalizing a launch, rolling a restart back and an announcement on a local row do if and only if the pair they write is free |
| Adoption.RollbackCanShareASession | src/daemon_protocol.rs:3976-3980 | a run from an exclusive start: a is restarted afresh, b binds what a had, a is rolled back, and both hold it |
| Adoption.RunTracks | src/state.rs:4017-4040 | over every run the row of one incarnation is where its history says: in place and blank or not, set aside by a restart, or gone; and no other row comes to pass for it |
| Adoption.AdoptionDetectsInterference | src/api.rs:5253-5366 | unless another row can pass for the candidate at discovery, over every run until the commit the registry is changed if and only if the discovered row was not bound, adopted, staged, replaced, renamed or removed, or was put back as it was, and the session is available to it |
| Adoption.CandidateIsMistakenIff | src/api.rs:5346-5353 | some run makes the comparison accept a row that is not the candidate if and only if another blank row of its incarnation, in place or one rollback away, is there at discovery and the name can be taken; never with an issued incarnation |
| Repairs.StepKeepsInv | src/api.rs:4112-4280 | every step keeps coordinators on distinct incarnations and every reservation accounted for |
| Repairs.FinishReleasesOnlyItsOwn | src/api.rs:4112-4180 | over every run a finishing repair releases its own reservation if and only if it failed, before or after staging, and never one another coordinator in flight made |
| Repairs.NothingAbandonedNothingReserved | src/api.rs:4197-4240 | with nobody in flight and nothing abandoned a repair is never refused as in progress |
| Repairs.StepWedgesIff | src/api.rs:4139-4180 | with any number of coordinators in flight and whatever earlier ones left, a step ends in a session stuck for good if and only if a repair that did not fail leaves its reservation unstaged with no restart pending, a restart ends or is rolled back on a row with an orphaned one, or it was stuck and the row is not replaced |
| Repairs.StuckStays | src/daemon_protocol.rs:3610-3713 | a reservation that was not staged and has lost its coordinator blocks every repair and launch over any run in which the row is not replaced or removed and the daemon not restarted |
| Repairs.RestartFrees | src/daemon_protocol.rs:382-388 | reservations are not saved, so a restart of the daemon ends every repair and every blockage |
| Repairs.RepairsCanGetStuck | src/nostr_transport.rs:3514-3670 | three runs from every quiet half-bound session that end there: a superseded restart, one superseded by a restart that then settles, and a failed one whose lease is retained |
| Repairs.PendingIsNeverReported | src/api.rs:4162-4178 | below the last generation no coordinator ever reports a pending or inconclusive launch |
| Repairs.ReportFollowsLaunches | src/api.rs:4139-4180 | over every run since its reservation, below the last generation, a coordinator that did not fail reports bound if and only if the row has exactly one more launch behind it and a complete pair with no reservation, and superseded otherwise; one that failed reports the failure if and only if the row still held its reservation |
| Repairs.StagingsAreLaunches | src/daemon_protocol.rs:3610-3713 | unless the row is rolled back or registered anew the launches behind it are those staged since |
| Repairs.RolledBackLaunchesDoNotCount | src/daemon_protocol.rs:3941-3997 | a run from every quiet half-bound session in which others stage two launches after a rollback and the repair is reported bound all the same |
| Repairs.ReplacingFrees | src/daemon_protocol.rs:3485-3520 | a new row of the same id, and the removal of the row, end a blockage |
| SessionEnd.HookNamesOneLocalRow | src/hooks.rs:46-65 | over every run of lifecycle work, orderly announcements, saves, crashes and reloads a hook with an issued incarnation names at most one local row |
| SessionEnd.LookupIsUniqueIff | src/hooks.rs:46-65 | in every reachable state the lookup has at most one row to find if and only if no foreign row answers to the hook, or one does and no local row |
| SessionEnd.EndingIsSureIff | src/hooks.rs:46-85 | a named local session without a lease is ended in whatever order rows are visited, if and only if no foreign row answers to the hook |
| SessionEnd.PaneHookHasNoImpostors | src/daemon_protocol.rs:5886-5900 | foreign rows never have a pane, so over every run a hook that names its session by pane alone is answered by no foreign row |
| SessionEnd.AnnouncementHidesTheEnd | src/daemon_protocol.rs:5877-5911 | an announced row with the session's backend session and incarnation can be found instead, and the session stays |
| SessionEnd.SlashNameIsCaptured | src/api.rs:3036-3063 | a run in which a start under a name with a slash, and an announcement, leave two local rows with one incarnation |
| DaemonRuns.LegacyStartIsNumbered | src/persistence.rs:213-284 | what a legacy file loads as is a state all runs can start from |
| DaemonRuns.SysStepKeepsInv | src/main.rs:1756-2185 | saving, crashing, reconciling leases and reloading keep incarnations apart |
| DaemonRuns.SavedComesBack | src/main.rs:1590-1621 | a crash right after a save brings back every session nothing was being done to, the incumbent of a staged restart, and of interrupted operations exactly the rows that are not theirs to take away |
| DaemonRuns.FittingRunsCanRestart | src/main.rs:1756-1788 | over every run of steps that fit, the daemon can crash at any point and start from what it saved last |
| SessionEnd.NeverBackIff | src/daemon_protocol.rs:2019-2028 | an issued incarnation stays away over every run, crashes included, in which nobody announces that number on a local row, if and only if it was handed out, no session carries it, and the last snapshot, if the validator accepts it, was written after that and brings no row with it |
| SessionEnd.LateHookIsHarmless | src/hooks.rs:67-85 | however late, crashes included, a hook removes the very local row it found or nothing, and does nothing once that incarnation is gone for good |
| SessionEnd.FindEnding | src/hooks.rs:46-65 | finds a named row if there is one, in any order |
| SessionEnd.DormantOwned | src/daemon_protocol.rs:2661-2702 | retires the row found if it is still there, unleased and unchanged, and files it as dormant with its number, pair and project, without credential or reservation, if and only if it can be recovered |
| SessionEnd.SessionEnd | src/hooks.rs:40-86 | a hook ends a named local row that has no lease, files it as dormant if and only if it can be recovered, and touches no other |
| CompactSlot.SessionAgent.TrySet | src/session_agent.rs:705-722 | parks only into an empty slot of a current agent |
| CompactSlot.SessionAgent.Drain | src/session_agent.rs:509-520 | takes the continuation out of a current agent, once |
| CompactSlot.Compact | src/api.rs:1915-1966 | alone, a busy slot is left as it is and a failed injection leaves it empty |
| CompactSlot.ContinuationsAreConserved | src/hooks.rs:214-264 | over every interleaving a parked continuation is in exactly one place, and is injected at most once |
| CompactSlot.RollbackTakesTheNewest | src/api.rs:1938-1956 | a rollback takes nothing or the newest continuation; it takes no other request's if and only if the slot is empty or no later request has parked |
| CompactSlot.RollbackSparesOthersIff | src/api.rs:1915-1966 | from parking to failed injection: the rollback takes another's continuation if and only if the slot is full and another request parked in between, which takes a hook, a rollback or a change of agent before it; and its own if and only if none of these happened |
| CompactSlot.SlotHistory | src/session_agent.rs:509-520 | a continuation stays parked until a step takes it out, no other is parked before that, and it never comes back |
| CompactSlot.RollbackCanTakeAnother | src/api.rs:1940-1962 | from every state with a request still injecting, its rollback can discard a later request's continuation |
| CompactSlot.ParkedArrives | src/hooks.rs:214-264 | from every state in which a request can park, its continuation is taken out by the next hook and injected once, or lost if that injection fails, and the slot is free again |
| CompactSlot.FailedRequestTakesItsOwnBack | src/api.rs:1938-1956 | a request that fails with nothing in between takes its own continuation back |
| CompactSlot.NewAgentStartsEmpty | src/session_agent.rs:509-520 | a new agent starts with an empty slot, and what was parked on the old one is lost with it |
| ProjectPath.NormalizeAbsolute | src/project_identity.rs:98-136 | the canonical longest existing ancestor followed by the missing names in order, or an error exactly when no such result exists |
| ProjectPath.AncestorIsUnique | src/project_identity.rs:113-126 | one ancestor qualifies, so the result is determined |
| ProjectPath.NormalizingAgain | src/project_identity.rs:98-136 | a result has no parent components and normalizes to itself if and only if it is not the root |
| ProjectPath.NormalizingCanReachTheRoot | src/project_identity.rs:104-108 | a well-behaved file system and a path other than the root that normalizes to the root |
| Utf8Preview.PreviewEnd | src/project_index.rs:84-87 | the greatest boundary within the length and the limit of 500, and how many steps it took |
| Utf8Preview.PreviewIsLongestPrefix | src/project_index.rs:84-88 | for every valid UTF-8 string the cut is valid, reads as the longest prefix that fits, and is at most three bytes short of the limit |
| Utf8Preview.DecodeEncode | src/project_index.rs:84-88 | decoding (section 4 of RFC 3629) undoes encoding |
| Utf8Preview.EncodeDecode | src/project_index.rs:84-88 | one byte string stands for each text |
| Utf8Preview.BoundaryEndsPrefix | src/project_index.rs:84-87 | every character boundary is the end of an encoded prefix |
| Utf8Preview.BoundaryIsNear | src/project_index.rs:84-87 | some boundary lies at most three bytes back |
| HtmlEscape.PassesAreOneSubstitution | src/admin.rs:1528-1534 | five passes over the text equal one substitution of each character, because the ampersand goes first |
| HtmlEscape.EscapeIsFaithful | src/admin.rs:1528-1534 | escaping can be read back, is injective and leaves no raw angle bracket or quote |

## Left out

- Integer width of message ids, timestamps and attempt counters: unbounded here; incarnations and generations have their 64-bit ends.
- HTTP routing, JSON shapes, status codes, tracing and text formatting: plumbing; the two snapshot envelopes are datatype cases.
- tmux, HTTP and Nostr transports: their answers are parameters; a rejected HTTP answer or a failed raw injection is taken to deliver nothing, an ambiguous one counts as delivered.
- Clocks and timers: times are parameters, waiting is a step that may come at any moment.
- git and the file system: functions that are parameters; `ProjectPath.NormalizingAgain` states what it needs of them.
- Effects of the daemon other than those of a send: persistence, tmux variables and agent start and stop are not recorded.
- ObligationRuns.LedgerIsExact: message ids are taken to be new to the bucket they enter, as the documentation promises; what happens when they are not is stated for failed sends alone.
- SessionEnd.HookNamesOneLocalRow: runs start from a snapshot this daemon could have written or from legacy rows; the validator does not itself check that incarnations differ.
- Durable: open accounting segments, pending replies and the owner filed with a lease's project are not in the registry; a snapshot may hold any that are coherent. Saving is taken to succeed.
- Adoption.StagingIsExclusiveIff: the backend a launch resumes under is compared with the row as it is staged; the daemon reads it earlier, under the same lease.
- Lifecycle: a launch is finalized with a backend, as every caller does, though the event would take none; registrations may happen although a lease claims their pane or project, which allows more runs than the daemon has; one that takes over another session's pane removes that session first, as a step of its own; the removal of a staged row that had no predecessor under a lease is not a step.
- Repairs: runs follow one session; other sessions only raise the mark, and a bind or adopt may happen without asking who else holds the pair, so the results hold for more runs than the daemon has. Rename of a session between reserving and staging is not a step.
- Binding, recovering and rebinding of a backend identity: the refusals have no further state; only what succeeds is a step.
- Project identity resolution above path normalization, description extraction and the admin pages: only the loops and the escape function named above.
- Most of session start, provisioning, scheduling, settings, task storage and node listings: long chains without a protocol of their own.
