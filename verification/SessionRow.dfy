// One session row and what the daemon does to it: reserving a repair, staging
// a launch, binding, adopting and finalizing a backend session, and how a
// repair coordinator reads the outcome.

module SessionRow {
  import opened Options
  import Snapshot

  const U64_MAX := 0xFFFF_FFFF_FFFF_FFFF

  datatype RepairPhase = PreStage | Staged

  datatype Reservation = Reservation(incarnation: nat, generation: nat, phase: RepairPhase)

  datatype Row = Row(
    isLocal: bool,
    pane: Option<string>,
    incarnation: nat,
    generation: nat,
    backend: Option<string>,
    sid: Option<string>,
    credential: Option<string>,
    projectDir: Option<string>,
    canonicalProject: Option<string>,
    reservation: Option<Reservation>)

  function Saturating(n: nat): nat {
    if n < U64_MAX then n + 1 else n
  }

  predicate Complete(row: Row) {
    row.backend.Some? && row.sid.Some?
  }

  predicate HoldsPair(row: Row, pair: Snapshot.Pair) {
    row.backend == Some(pair.backend) && row.sid == Some(pair.sessionId)
  }

  // A row that can become dormant: its pair and its project are usable.
  predicate Recoverable(row: Row) {
    && Complete(row) && row.backend.value != "" && row.sid.value != ""
    && row.projectDir.Some? && Snapshot.UsableProject(row.projectDir.value)
    && row.canonicalProject.Some? && Snapshot.UsableProject(row.canonicalProject.value)
  }

  // Neither half of a pair, and no launch pending.
  predicate Blank(row: Row) {
    row.backend.None? && row.sid.None? && row.credential.None?
  }

  // ----- reserving a repair -----

  datatype Refusal = TargetNotFound | TargetNotLocal | NotIncompleteLegacy | BackendMismatch | RepairInProgress

  function RefuseRow(row: Row, backend: string): Option<Refusal> {
    if !row.isLocal then Some(TargetNotLocal)
    else if row.backend.Some? == row.sid.Some? then Some(NotIncompleteLegacy)
    else if row.backend.Some? && row.backend.value != backend then Some(BackendMismatch)
    else if row.reservation.Some? then Some(RepairInProgress)
    else None
  }

  function FreshReservation(row: Row): Reservation {
    Reservation(row.incarnation, Saturating(row.generation), PreStage)
  }

  function ReservedRow(row: Row): Row {
    row.(reservation := Some(FreshReservation(row)))
  }

  // ----- reading a finished repair -----

  datatype RestartOutcome = Restarted | RestartFailure | RestartSuperseded

  datatype RepairOutcome = RestartFailed | SessionStartPending | Bound | Inconclusive | Superseded

  // The phase is left out: a launch can fail before or after it was staged.
  predicate SameRepair(a: Reservation, b: Reservation) {
    a.incarnation == b.incarnation && a.generation == b.generation
  }

  predicate Holds(row: Row, r: Reservation) {
    row.reservation.Some? && SameRepair(row.reservation.value, r)
  }

  function Released(row: Row, r: Reservation): Row {
    if Holds(row, r) then row.(reservation := None) else row
  }

  // r is the reservation as it was made, before staging.
  function Classified(row: Row, r: Reservation, outcome: RestartOutcome): RepairOutcome {
    if outcome.RestartFailure? then
      if Holds(row, r) then RestartFailed
      else if row.reservation.None? && Complete(row) then Bound
      else Superseded
    else if row.generation != r.generation then Superseded
    else if row.reservation.None? && Complete(row) then Bound
    else if row.reservation != Some(r) then Superseded
    else if row.credential.Some? then SessionStartPending
    else Inconclusive
  }

  // ----- launches -----

  predicate CanStageRow(row: Row, expected: Option<Reservation>) {
    && row.isLocal
    && row.reservation == expected
    && (expected.Some? ==> expected.value == FreshReservation(row))
  }

  // A launch about to be staged. freshly: it was asked not to resume, or a
  // scheduled one finds nothing to resume. detected: a session found in the
  // project directory. leased: it runs under a restart lease. scheduled: the
  // schedule names the backend and what to resume, whatever the row says.
  datatype Launch = Launch(
    backend: string,
    credential: Option<string>,
    freshly: bool,
    detected: Option<string>,
    leased: bool,
    scheduled: bool)

  // A launch that is not scheduled resumes only under the backend the row already has: its own
  // session, or one detected in the project directory.
  function ResumeId(row: Row, backend: string, freshly: bool, detected: Option<string>): (id: Option<string>)
    ensures id.Some? ==> row.backend == Some(backend) && !freshly
  {
    if freshly || row.backend != Some(backend) then None
    else if row.sid.Some? then row.sid
    else detected
  }

  // A launch that does not resume forgets the old backend session; one that
  // does keeps the row's, under its own backend.
  function StagedRow(row: Row, backend: string, credential: Option<string>, resumed: bool, incarnation: nat): Row {
    row.(incarnation := incarnation,
         generation := Saturating(row.generation),
         backend := Some(backend),
         sid := if resumed then row.sid else None,
         credential := if resumed then row.credential else credential,
         reservation :=
           if row.reservation.Some? then Some(row.reservation.value.(phase := Staged)) else None)
  }

  // Without a lease a launch is always staged afresh.
  predicate Resumes(row: Row, launch: Launch) {
    && launch.leased
    && (if launch.scheduled then !launch.freshly
        else ResumeId(row, launch.backend, launch.freshly, launch.detected).Some?)
  }

  function LaunchedRow(row: Row, launch: Launch, incarnation: nat): Row {
    StagedRow(row, launch.backend, launch.credential, Resumes(row, launch), incarnation)
  }

  // The final metadata of a launch keeps a pair bound meanwhile, the
  // generation and the reservation, and completes the repair if the pair is
  // complete.
  function FinalizedRow(row: Row, meta: Row): Row {
    var (backend, sid) := if Complete(row) then (row.backend, row.sid) else (meta.backend, meta.sid);
    row.(pane := meta.pane,
         backend := backend,
         sid := sid,
         credential := if Complete(row) || row.credential.Some? then row.credential else meta.credential,
         projectDir := meta.projectDir,
         canonicalProject := meta.canonicalProject,
         reservation :=
           if backend.Some? && sid.Some? && row.reservation.Some? && row.reservation.value.generation == row.generation
           then None else row.reservation)
  }

  // ----- binding and adopting -----

  // Binding completes a staged repair of the current generation.
  function BoundRow(row: Row, pair: Snapshot.Pair): Row {
    row.(backend := Some(pair.backend),
         sid := Some(pair.sessionId),
         credential := None,
         reservation :=
           if row.reservation.Some? && row.reservation.value.generation == row.generation
              && row.reservation.value.phase.Staged?
           then None else row.reservation)
  }

  function AdoptedRow(row: Row, pair: Snapshot.Pair, expectedCredential: Option<string>): Row {
    row.(backend := Some(pair.backend),
         sid := Some(pair.sessionId),
         credential := if expectedCredential.Some? then None else row.credential)
  }

  // ----- what a launch makes of a row -----

  // A row as a launch leaves it when all is done: its own new incarnation and
  // generation, bound to a session, with the pane and project of the final
  // metadata, no credential pending and no repair.
  function LaunchDone(row: Row, n: nat, pair: Snapshot.Pair, meta: Row): Row {
    Row(row.isLocal, meta.pane, n, row.generation + 1, Some(pair.backend), Some(pair.sessionId), None,
        meta.projectDir, meta.canonicalProject, None)
  }

  // A fresh launch ends in the same row whether its session is bound before or
  // after its final metadata is in, whatever credential that metadata carries.
  lemma FreshLaunchCompletes(row: Row, launch: Launch, n: nat, pair: Snapshot.Pair, meta: Row)
    requires CanStageRow(row, row.reservation) && !Resumes(row, launch) && row.generation < U64_MAX
    requires launch.credential.Some? && pair.backend == launch.backend
    requires meta.backend == Some(launch.backend) && meta.sid.None?
    ensures var staged := LaunchedRow(row, launch, n);
            && staged.sid.None? && staged.credential == launch.credential && staged.isLocal == row.isLocal
            && (staged.reservation.Some? <==> row.reservation.Some?)
            && FinalizedRow(staged, meta).credential == launch.credential
            && FinalizedRow(BoundRow(staged, pair), meta) == LaunchDone(row, n, pair, meta)
            && BoundRow(FinalizedRow(staged, meta), pair) == LaunchDone(row, n, pair, meta)
  {
  }

  // One that resumes under the backend of its row keeps the session and the
  // credential, whatever pair the final metadata carries, and gets its pane and
  // project from there.
  lemma ResumedLaunchCompletes(row: Row, launch: Launch, n: nat, meta: Row)
    requires CanStageRow(row, row.reservation) && Resumes(row, launch) && row.generation < U64_MAX
    requires Complete(row) && row.backend == Some(launch.backend)
    ensures FinalizedRow(LaunchedRow(row, launch, n), meta) ==
            Row(row.isLocal, meta.pane, n, row.generation + 1, row.backend, row.sid, row.credential,
                meta.projectDir, meta.canonicalProject, None)
  {
  }

  // What a launch with nothing pending is finalized with is what its metadata
  // says, a pair included, and a complete pair ends the repair.
  lemma UnpendingLaunchTakesMetadata(row: Row, meta: Row)
    requires !Complete(row) && row.credential.None?
    ensures FinalizedRow(row, meta) ==
            meta.(isLocal := row.isLocal, incarnation := row.incarnation, generation := row.generation,
                  reservation := if Complete(meta) && row.reservation.Some?
                                    && row.reservation.value.generation == row.generation
                                 then None else row.reservation)
  {
  }

  // Before staging a row keeps its reservation through a bind; and a launch may
  // be staged over one only as the repair that made it, for this incarnation and
  // the next generation.
  lemma OnlyStagedRepairsComplete(row: Row, pair: Snapshot.Pair, expected: Option<Reservation>)
    ensures BoundRow(row, pair).reservation == row.reservation || BoundRow(row, pair).reservation == None
    ensures row.reservation.Some? && BoundRow(row, pair).reservation.None? <==>
              row.reservation.Some? && row.reservation.value.phase.Staged?
              && row.reservation.value.generation == row.generation
    ensures CanStageRow(row, expected) <==>
              && row.isLocal && row.reservation == expected
              && (expected.Some? ==>
                    && expected.value.phase.PreStage? && expected.value.incarnation == row.incarnation
                    && expected.value.generation == if row.generation < U64_MAX then row.generation + 1
                                                    else row.generation)
  {
  }

  // A launch resumes, if at all, its row's own session before a detected one;
  // without its backend, afresh, or with neither session, it does not.
  lemma OwnSessionFirst(row: Row, backend: string, freshly: bool, detected: Option<string>)
    ensures ResumeId(row, backend, freshly, detected).Some? <==>
              !freshly && row.backend == Some(backend) && (row.sid.Some? || detected.Some?)
    ensures ResumeId(row, backend, freshly, detected).Some? ==>
              ResumeId(row, backend, freshly, detected) == if row.sid.None? then detected else row.sid
  {
  }
}
