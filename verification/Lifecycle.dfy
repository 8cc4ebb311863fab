// Runs of the session registry: rows are started, registered, staged, bound,
// adopted, finalized, rolled back, renamed, removed and made dormant, lifecycle
// leases come and go, and other daemons announce rows of their own. Each step
// is one region under the protocol lock.

module Lifecycle {
  import opened Options
  import opened SessionRow
  import opened BackendBinding
  import Snapshot

  datatype Step =
    | ReserveStart(id: string)
    | CommitStart(id: string, row: Row)
    | Register(id: string, row: Row)
    | Recover(id: string, row: Row)
    | ClaimRestart(id: string)
    | ClaimStop(id: string)
    | RecordBackend(id: string, pair: Snapshot.Pair)
    | ClearBackend(id: string)
    | RecordPane(id: string, pane: string, paneOwner: nat)
    | RecordProject(id: string, project: string)
    | EndLease(id: string)
    | Stage(id: string, expected: Option<Reservation>, launch: Launch)
    | Bind(id: string, pair: Snapshot.Pair, credential: Option<string>)
    | RecoverIdentity(id: string, pair: Snapshot.Pair)
    | Rebind(id: string, pair: Snapshot.Pair)
    | Commit(c: Candidate, sid: string)
    | Finalize(id: string, meta: Row)           // every launch names its backend
    | RollBack(id: string)
    | Rename(from: string, to: string)
    | Remove(id: string)
    | Retire(id: string)
    | Announce(id: string, wire: Option<Row>)   // a row of another daemon, or a human's
    | Forget(id: string)                        // such a row is withdrawn

  const UNKNOWN := Row(false, None, 0, 0, None, None, None, None, None, None)

  predicate IsLocal(reg: Registry, id: string) {
    id in reg.rows && reg.rows[id].isLocal
  }

  predicate Leased(reg: Registry, id: string) {
    id in reg.leases
  }

  // A restart that has staged its target.
  predicate StagedRestart(reg: Registry, id: string) {
    && id in reg.leases
    && reg.leases[id].phase.Restarting?
    && reg.leases[id].target.Some?
    && reg.leases[id].previous.Some?
  }

  // ----- staging and rolling back -----

  predicate CanStage(reg: Registry, id: string, expected: Option<Reservation>, launch: Launch) {
    && id in reg.rows
    && CanStageRow(reg.rows[id], expected)
    && (if launch.leased then UnstagedRestart(reg, id) else !StopInProgress(reg, id))
    && reg.mark < U64_MAX
  }

  // The restart lease of this very row, with nothing staged yet.
  predicate UnstagedRestart(reg: Registry, id: string)
    requires id in reg.rows
  {
    && id in reg.leases
    && reg.leases[id].phase.Restarting?
    && reg.leases[id].owner == reg.rows[id].incarnation
    && reg.leases[id].target.None? && reg.leases[id].previous.None?
  }

  function WithLaunch(reg: Registry, id: string, launch: Launch): Registry
    requires id in reg.rows && (launch.leased ==> id in reg.leases)
  {
    var next := reg.mark + 1;
    Registry(
      reg.rows[id := LaunchedRow(reg.rows[id], launch, next)],
      reg.dormant,
      if launch.leased
      then reg.leases[id := reg.leases[id].(target := Some(next), previous := Some(reg.rows[id]))]
      else reg.leases,
      next)
  }

  predicate CanRollBack(reg: Registry, id: string) {
    && IsLocal(reg, id)
    && StagedRestart(reg, id)
    && reg.leases[id].target == Some(reg.rows[id].incarnation)
    && reg.leases[id].previous.value.incarnation == reg.leases[id].owner
  }

  function RolledBack(reg: Registry, id: string): Registry
    requires CanRollBack(reg, id)
  {
    reg.(rows := reg.rows[id := reg.leases[id].previous.value], leases := reg.leases - {id})
  }

  // ----- writing a pair -----

  // A registration keeps a complete pair, and does not bind an existing row.
  predicate KeepsPair(reg: Registry, id: string, row: Row) {
    IsLocal(reg, id) ==>
      if Complete(reg.rows[id]) then row.backend == reg.rows[id].backend && row.sid == reg.rows[id].sid
      else !Complete(row)
  }

  // A dormant row comes back under its own pair, with a new incarnation.
  predicate CanRecover(reg: Registry, id: string, row: Row) {
    && id in reg.dormant && id !in reg.rows && !Leased(reg, id) && reg.mark < U64_MAX
    && row.isLocal && row.incarnation == reg.mark + 1
    && Complete(reg.dormant[id]) && row.backend == reg.dormant[id].backend && row.sid == reg.dormant[id].sid
    && var pair := Snapshot.Pair(row.backend.value, row.sid.value);
       && !HeldByRow(reg, id, pair)
       && (forall d :: d in reg.dormant && d != id ==> !HoldsPair(reg.dormant[d], pair))
  }

  // The pane of a blank row shows a session that nobody holds.
  predicate CanRecoverIdentity(reg: Registry, id: string, pair: Snapshot.Pair) {
    && IsLocal(reg, id)
    && Blank(reg.rows[id]) && reg.rows[id].reservation.None?
    && pair.backend != "" && pair.sessionId != ""
    && !Leased(reg, id)
    && (forall l :: l in reg.leases ==> reg.leases[l].pair != Some(pair))
    && !HeldElsewhere(reg, id, pair)
  }

  // A bound row moves to another session of its backend.
  predicate CanRebind(reg: Registry, id: string, pair: Snapshot.Pair) {
    && IsLocal(reg, id)
    && Complete(reg.rows[id]) && reg.rows[id].backend == Some(pair.backend)
    && reg.rows[id].credential.None?
    && Available(reg, id, pair)
  }

  function PairedRow(row: Row, pair: Snapshot.Pair): Row {
    row.(backend := Some(pair.backend), sid := Some(pair.sessionId))
  }

  // ----- steps -----

  predicate Enabled(reg: Registry, step: Step) {
    match step
    case ReserveStart(id) => !Leased(reg, id) && id !in reg.rows && reg.mark < U64_MAX
    case CommitStart(id, row) =>
      && Leased(reg, id) && reg.leases[id].phase.Starting? && id !in reg.rows
      && row.isLocal && row.incarnation == reg.leases[id].owner && Free(reg, id, row)
    case Register(id, row) =>
      && !Leased(reg, id) && '/' !in id && reg.mark < U64_MAX
      && row.isLocal && row.incarnation == reg.mark + 1 && KeepsPair(reg, id, row) && Free(reg, id, row)
    case Recover(id, row) => CanRecover(reg, id, row)
    case ClaimRestart(id) => !Leased(reg, id) && IsLocal(reg, id)
    case ClaimStop(id) => !Leased(reg, id) && IsLocal(reg, id) && reg.rows[id].pane.Some?
    case RecordBackend(id, pair) =>
      StagedRestart(reg, id) && (reg.leases[id].pair.Some? ==> reg.leases[id].pair.value.sessionId == pair.sessionId)
    case ClearBackend(id) => StagedRestart(reg, id)
    case RecordPane(id, _, paneOwner) => Leased(reg, id) && OwnsLease(reg.leases[id], paneOwner)
    case RecordProject(id, project) =>
      Leased(reg, id) && (reg.leases[id].project.Some? ==> reg.leases[id].project == Some(project))
    case EndLease(id) => Leased(reg, id)
    case Stage(id, expected, launch) => CanStage(reg, id, expected, launch)
    case Bind(id, pair, credential) => CanBind(reg, id, pair, credential)
    case RecoverIdentity(id, pair) => CanRecoverIdentity(reg, id, pair)
    case Rebind(id, pair) => CanRebind(reg, id, pair)
    case Commit(_, _) => true
    case Finalize(id, meta) => IsLocal(reg, id) && !StopInProgress(reg, id) && meta.backend.Some?
    case RollBack(id) => CanRollBack(reg, id)
    case Rename(from, to) =>
      IsLocal(reg, from) && to !in reg.rows && !Leased(reg, from) && !Leased(reg, to) && '/' !in to
    case Remove(id) => IsLocal(reg, id) && (!Leased(reg, id) || StopInProgress(reg, id))
    case Retire(id) => IsLocal(reg, id) && !Leased(reg, id)
    case Announce(id, wire) => wire.Some? ==> '/' in id && wire.value.incarnation <= U64_MAX
    case Forget(id) => id in reg.rows && !reg.rows[id].isLocal
  }

  predicate OwnsLease(lease: Lease, incarnation: nat) {
    lease.owner == incarnation || lease.target == Some(incarnation)
  }

  function RestartLease(row: Row): Lease {
    Lease(Restarting, row.incarnation, None, None, None, row.projectDir, None, None)
  }

  function StopLease(row: Row): Lease {
    Lease(Stopping, row.incarnation, None, None,
          if Complete(row) then Some(Snapshot.Pair(row.backend.value, row.sid.value)) else None,
          row.projectDir, row.pane, Some(row.incarnation))
  }

  // A new key gets a foreign row; one that is there keeps its origin and pane.
  function Announced(reg: Registry, id: string, wire: Option<Row>): Registry {
    if id !in reg.rows then
      var row := if wire.Some? then wire.value else UNKNOWN;
      reg.(rows := reg.rows[id := row.(isLocal := false, pane := None)])
    else if wire.None? then reg
    else reg.(rows := reg.rows[id := WireRow(reg.rows[id], wire.value)])
  }

  function WireRow(row: Row, wire: Row): Row {
    wire.(isLocal := row.isLocal, pane := row.pane)
  }

  // A recoverable row becomes dormant; another is dropped.
  function Retired(reg: Registry, id: string): Registry
    requires id in reg.rows
  {
    var row := reg.rows[id];
    reg.(rows := reg.rows - {id},
         dormant := if Recoverable(row)
                    then reg.dormant[id := row.(credential := None, reservation := None)]
                    else reg.dormant)
  }

  function Next(reg: Registry, step: Step): Registry
    requires Enabled(reg, step)
  {
    match step
    case ReserveStart(id) =>
      var next := reg.mark + 1;
      reg.(leases := reg.leases[id := Lease(Starting, next, None, None, None, None, None, None)], mark := next)
    case CommitStart(id, row) => reg.(rows := reg.rows[id := row], dormant := reg.dormant - {id})
    case Register(id, row) => Registry(reg.rows[id := row], reg.dormant - {id}, reg.leases, reg.mark + 1)
    case Recover(id, row) => Registry(reg.rows[id := row], reg.dormant - {id}, reg.leases, reg.mark + 1)
    case ClaimRestart(id) => reg.(leases := reg.leases[id := RestartLease(reg.rows[id])])
    case ClaimStop(id) => reg.(leases := reg.leases[id := StopLease(reg.rows[id])])
    case RecordBackend(id, pair) => reg.(leases := reg.leases[id := reg.leases[id].(pair := Some(pair))])
    case ClearBackend(id) => reg.(leases := reg.leases[id := reg.leases[id].(pair := None)])
    case RecordPane(id, pane, paneOwner) =>
      reg.(leases := reg.leases[id := reg.leases[id].(pane := Some(pane), paneOwner := Some(paneOwner))])
    case RecordProject(id, project) => reg.(leases := reg.leases[id := reg.leases[id].(project := Some(project))])
    case EndLease(id) => reg.(leases := reg.leases - {id})
    case Stage(id, _, launch) => WithLaunch(reg, id, launch)
    case Bind(id, pair, _) => reg.(rows := reg.rows[id := BoundRow(reg.rows[id], pair)])
    case RecoverIdentity(id, pair) => reg.(rows := reg.rows[id := PairedRow(reg.rows[id], pair)])
    case Rebind(id, pair) => reg.(rows := reg.rows[id := PairedRow(reg.rows[id], pair)])
    case Commit(c, sid) => CommitAdoption(reg, c, sid)
    case Finalize(id, meta) => reg.(rows := reg.rows[id := FinalizedRow(reg.rows[id], meta)])
    case RollBack(id) => RolledBack(reg, id)
    case Rename(from, to) =>
      reg.(rows := (reg.rows - {from})[to := reg.rows[from]], dormant := reg.dormant - {to})
    case Remove(id) => reg.(rows := reg.rows - {id})
    case Retire(id) => Retired(reg, id)
    case Announce(id, wire) => Announced(reg, id, wire)
    case Forget(id) => reg.(rows := reg.rows - {id})
  }

  function Exec(reg: Registry, steps: seq<Step>): Registry
    requires Valid(reg, steps)
    decreases |steps|
  {
    if steps == [] then reg else Exec(Next(reg, steps[0]), steps[1..])
  }

  predicate Valid(reg: Registry, steps: seq<Step>)
    decreases |steps|
  {
    steps == [] || (Enabled(reg, steps[0]) && Valid(Next(reg, steps[0]), steps[1..]))
  }

  // ----- announcements on local rows -----

  // An announcement under the name of a local row rewrites it.
  predicate Captures(reg: Registry, step: Step) {
    step.Announce? && step.wire.Some? && IsLocal(reg, step.id)
  }

  // ----- shapes of leases -----

  // What each phase holds, and that a row to fall back to is local and older
  // than what was staged over it.
  predicate LeaseOk(reg: Registry, id: string) {
    id in reg.leases ==>
      var lease := reg.leases[id];
      && (lease.target.Some? <==> lease.previous.Some?)
      && (lease.target.Some? ==>
            && lease.phase.Restarting?
            && lease.previous.value.isLocal
            && lease.previous.value.incarnation == lease.owner < lease.target.value <= reg.mark)
      && (lease.pair.Some? ==> lease.phase.Stopping? || lease.target.Some?)
      && (lease.paneOwner.Some? ==> OwnsLease(lease, lease.paneOwner.value))
      && (lease.phase.Starting? ==> lease.owner > 0)
  }

  ghost predicate Shaped(reg: Registry) {
    && (forall id :: LeaseOk(reg, id))
    && (forall d :: d in reg.dormant ==> Recoverable(reg.dormant[d]) && !IsLocal(reg, d))
  }

  // ----- issued incarnations -----

  // The incarnations recorded for one id: of a local row, of a lease's owner,
  // and of the row a restart would fall back to. 0 is no issued incarnation.
  function Recorded(reg: Registry, id: string): set<nat> {
    (if IsLocal(reg, id) then {reg.rows[id].incarnation} else {})
    + (if id in reg.leases then {reg.leases[id].owner} else {})
    + Fallback(reg, id)
  }

  function Fallback(reg: Registry, id: string): set<nat> {
    if id in reg.leases && reg.leases[id].previous.Some? then {reg.leases[id].previous.value.incarnation} else {}
  }

  // The row in place is newer than the one a restart would fall back to.
  predicate FallbackOk(reg: Registry, id: string) {
    IsLocal(reg, id) ==> Above(reg, id, reg.rows[id].incarnation)
  }

  predicate Above(reg: Registry, id: string, n: nat) {
    id in reg.leases && reg.leases[id].previous.Some? ==> reg.leases[id].previous.value.incarnation < n
  }

  // No issued incarnation is recorded for two ids, and none beyond the mark.
  ghost predicate Numbered(reg: Registry) {
    && (forall a, b, n :: 0 < n && n in Recorded(reg, a) && n in Recorded(reg, b) ==> a == b)
    && (forall a, n :: n in Recorded(reg, a) ==> n <= reg.mark)
    && (forall d :: d in reg.dormant ==> reg.dormant[d].incarnation <= reg.mark)
    && (forall a :: FallbackOk(reg, a))
  }

  ghost predicate Inv(reg: Registry) {
    Numbered(reg) && Shaped(reg)
  }

  // An announcement may rewrite a local row with a number that is none of
  // another session's, newer than what the row stands over, and not to come.
  ghost predicate Orderly(reg: Registry, step: Step) {
    Captures(reg, step) ==>
      var n := step.wire.value.incarnation;
      && n <= reg.mark
      && Above(reg, step.id, n)
      && (n > 0 ==> forall other :: other != step.id ==> n !in Recorded(reg, other))
  }

  predicate Issues(step: Step) {
    step.ReserveStart? || step.Register? || step.Recover? || step.Stage?
  }

  // The steps that write leases.
  predicate LeaseStep(step: Step) {
    || step.ClaimRestart? || step.ClaimStop? || step.RecordBackend? || step.ClearBackend?
    || step.RecordPane? || step.RecordProject? || step.EndLease?
  }

  // The steps that write a pair into a row that stays.
  predicate Edits(step: Step) {
    step.Bind? || step.RecoverIdentity? || step.Rebind? || step.Commit? || step.Finalize?
  }

  lemma StepKeepsMark(reg: Registry, step: Step)
    requires Enabled(reg, step)
    ensures Next(reg, step).mark == if Issues(step) then reg.mark + 1 else reg.mark
  {
  }

  // ----- what a step records -----

  lemma IssueRecords(reg: Registry, step: Step, id: string, n: nat)
    requires Enabled(reg, step) && Issues(step)
    requires n in Recorded(Next(reg, step), id)
    ensures n in Recorded(reg, id) || (id == step.id && n == reg.mark + 1)
  {
  }

  lemma EditKeepsNumbers(reg: Registry, step: Step, id: string)
    requires Enabled(reg, step) && Edits(step)
    ensures var after := Next(reg, step);
            && after.leases == reg.leases && after.mark == reg.mark && after.dormant == reg.dormant
            && (IsLocal(after, id) <==> IsLocal(reg, id))
            && (IsLocal(reg, id) ==> after.rows[id].incarnation == reg.rows[id].incarnation)
  {
  }

  lemma LeasingRecords(reg: Registry, step: Step, id: string, n: nat)
    requires Enabled(reg, step) && LeaseStep(step)
    requires n in Recorded(Next(reg, step), id)
    ensures n in Recorded(reg, id)
  {
  }

  lemma MoveRecords(reg: Registry, step: Step, id: string, n: nat)
    requires Enabled(reg, step)
    requires !Issues(step) && !Captures(reg, step) && !LeaseStep(step) && !Edits(step)
    requires n in Recorded(Next(reg, step), id)
    ensures || (n in Recorded(reg, id) && !(step.Rename? && id == step.from))
            || (step.Rename? && id == step.to && n in Recorded(reg, step.from))
  {
  }

  // A step hands out a new number, moves what is recorded under one name to
  // another, or records what an announcement writes into a local row; it
  // records nothing else new.
  lemma StepRecords(reg: Registry, step: Step, id: string, n: nat)
    requires Enabled(reg, step)
    requires n in Recorded(Next(reg, step), id)
    ensures || (n in Recorded(reg, id) && !(step.Rename? && id == step.from))
            || (Issues(step) && id == step.id && n == reg.mark + 1)
            || (step.Rename? && id == step.to && n in Recorded(reg, step.from))
            || (Captures(reg, step) && id == step.id && n == step.wire.value.incarnation)
  {
    if Issues(step) {
      IssueRecords(reg, step, id, n);
    } else if LeaseStep(step) {
      LeasingRecords(reg, step, id, n);
    } else if Edits(step) {
      EditKeepsNumbers(reg, step, id);
    } else if !Captures(reg, step) {
      MoveRecords(reg, step, id, n);
    }
  }

  // ----- what every step keeps -----

  lemma IssueKeepsLease(reg: Registry, step: Step, id: string)
    requires Inv(reg) && Enabled(reg, step) && Issues(step)
    ensures LeaseOk(Next(reg, step), id)
  {
    assert LeaseOk(reg, id);
    BelowMark(reg, id);
  }

  lemma LeasingKeepsLease(reg: Registry, step: Step, id: string)
    requires Inv(reg) && Enabled(reg, step) && LeaseStep(step)
    ensures LeaseOk(Next(reg, step), id)
  {
    assert LeaseOk(reg, id);
  }

  lemma RowStepKeepsLeases(reg: Registry, step: Step)
    requires Enabled(reg, step) && !Issues(step) && !LeaseStep(step)
    ensures Next(reg, step).leases == if step.RollBack? then reg.leases - {step.id} else reg.leases
    ensures Next(reg, step).mark == reg.mark
  {
  }

  lemma StepKeepsLease(reg: Registry, step: Step, id: string)
    requires Inv(reg) && Enabled(reg, step)
    ensures LeaseOk(Next(reg, step), id)
  {
    if Issues(step) {
      IssueKeepsLease(reg, step, id);
    } else if LeaseStep(step) {
      LeasingKeepsLease(reg, step, id);
    } else {
      RowStepKeepsLeases(reg, step);
      assert LeaseOk(reg, id);
    }
  }

  lemma StepKeepsShape(reg: Registry, step: Step)
    requires Inv(reg) && Enabled(reg, step)
    ensures Shaped(Next(reg, step))
  {
    forall id
      ensures LeaseOk(Next(reg, step), id)
    {
      StepKeepsLease(reg, step, id);
    }
  }

  lemma BelowMark(reg: Registry, id: string)
    requires Numbered(reg)
    ensures IsLocal(reg, id) ==> reg.rows[id].incarnation <= reg.mark
    ensures forall n :: n in Fallback(reg, id) ==> n <= reg.mark
  {
    assert forall n :: n in Recorded(reg, id) ==> n <= reg.mark;
    assert IsLocal(reg, id) ==> reg.rows[id].incarnation in Recorded(reg, id);
    assert forall n :: n in Fallback(reg, id) ==> n in Recorded(reg, id);
  }

  lemma IssueKeepsFallback(reg: Registry, step: Step, id: string)
    requires Inv(reg) && Enabled(reg, step) && Issues(step)
    ensures FallbackOk(Next(reg, step), id)
  {
    assert FallbackOk(reg, id) && LeaseOk(reg, id);
    BelowMark(reg, id);
  }

  lemma LeasingKeepsFallback(reg: Registry, step: Step, id: string)
    requires Inv(reg) && Enabled(reg, step) && LeaseStep(step)
    ensures FallbackOk(Next(reg, step), id)
  {
    assert FallbackOk(reg, id);
  }

  lemma MoveKeepsFallback(reg: Registry, step: Step, id: string)
    requires Inv(reg) && Enabled(reg, step)
    requires !Issues(step) && !Captures(reg, step) && !LeaseStep(step) && !Edits(step)
    ensures FallbackOk(Next(reg, step), id)
  {
    assert FallbackOk(reg, id) && LeaseOk(reg, id);
  }

  lemma StepKeepsFallback(reg: Registry, step: Step, id: string)
    requires Inv(reg) && Enabled(reg, step) && !Captures(reg, step)
    ensures FallbackOk(Next(reg, step), id)
  {
    if Issues(step) {
      IssueKeepsFallback(reg, step, id);
    } else if LeaseStep(step) {
      LeasingKeepsFallback(reg, step, id);
    } else if Edits(step) {
      assert FallbackOk(reg, id);
      EditKeepsNumbers(reg, step, id);
    } else {
      MoveKeepsFallback(reg, step, id);
    }
  }

  lemma OnlyRetiringAddsDormant(reg: Registry, step: Step, d: string)
    requires Enabled(reg, step) && d in Next(reg, step).dormant
    ensures (d in reg.dormant && Next(reg, step).dormant[d] == reg.dormant[d])
            || (step == Retire(d) && Next(reg, step).dormant[d].incarnation == reg.rows[d].incarnation)
  {
  }

  lemma DormantStaysBelow(reg: Registry, step: Step, d: string)
    requires Inv(reg) && Enabled(reg, step) && d in Next(reg, step).dormant
    ensures Next(reg, step).dormant[d].incarnation <= reg.mark
  {
    OnlyRetiringAddsDormant(reg, step, d);
    BelowMark(reg, d);
  }

  lemma PlainStepKeepsInv(reg: Registry, step: Step)
    requires Inv(reg) && Enabled(reg, step) && !Captures(reg, step)
    ensures Numbered(Next(reg, step))
  {
    var after := Next(reg, step);
    StepKeepsMark(reg, step);
    forall d | d in after.dormant
      ensures after.dormant[d].incarnation <= reg.mark
    {
      DormantStaysBelow(reg, step, d);
    }
    forall a
      ensures FallbackOk(after, a)
    {
      StepKeepsFallback(reg, step, a);
    }
    forall a, b, n | n in Recorded(after, a) && n in Recorded(after, b)
      ensures (0 < n ==> a == b) && n <= after.mark
    {
      StepRecords(reg, step, a, n);
      StepRecords(reg, step, b, n);
    }
  }

  lemma CaptureRecords(reg: Registry, step: Step, other: string)
    requires Enabled(reg, step) && Captures(reg, step)
    ensures var after, n := Next(reg, step), step.wire.value.incarnation;
            if other == step.id
            then n in Recorded(after, other) && Recorded(after, other) <= Recorded(reg, other) + {n}
                 && (FallbackOk(after, other) <==> Above(reg, other, n))
            else Recorded(after, other) == Recorded(reg, other)
                 && (FallbackOk(after, other) <==> FallbackOk(reg, other))
  {
  }

  lemma CaptureIsNumberedIff(reg: Registry, step: Step)
    requires Inv(reg) && Enabled(reg, step) && Captures(reg, step)
    ensures Numbered(Next(reg, step)) <==> Orderly(reg, step)
  {
    forall other {
      CaptureRecords(reg, step, other);
    }
    StepKeepsMark(reg, step);
    var n := step.wire.value.incarnation;
    assert n in Recorded(Next(reg, step), step.id);
  }

  // Every step keeps leases in shape, and keeps issued incarnations apart and
  // below the mark if and only if it is orderly: only an announcement on a
  // local row can fail to be.
  lemma StepIsNumberedIff(reg: Registry, step: Step)
    requires Inv(reg) && Enabled(reg, step)
    ensures Shaped(Next(reg, step))
    ensures Numbered(Next(reg, step)) <==> Orderly(reg, step)
  {
    StepKeepsShape(reg, step);
    if Captures(reg, step) {
      CaptureIsNumberedIff(reg, step);
    } else {
      PlainStepKeepsInv(reg, step);
    }
  }

  // ----- what a step does, and to whom -----

  function Touched(step: Step): set<string> {
    match step
    case Rename(from, to) => {from, to}
    case Commit(c, _) => {c.id}
    case _ => {step.id}
  }

  predicate SameAt(a: Registry, b: Registry, id: string) {
    && (id in a.rows <==> id in b.rows) && (id in a.rows ==> a.rows[id] == b.rows[id])
    && (id in a.dormant <==> id in b.dormant) && (id in a.dormant ==> a.dormant[id] == b.dormant[id])
    && (id in a.leases <==> id in b.leases) && (id in a.leases ==> a.leases[id] == b.leases[id])
  }

  // A step leaves everything filed under another name as it was.
  lemma StepSparesOthers(reg: Registry, step: Step, other: string)
    requires Enabled(reg, step) && other !in Touched(step)
    ensures SameAt(reg, Next(reg, step), other)
  {
    if Issues(step) || Edits(step) {
      WriteSparesOthers(reg, step, other);
    } else if LeaseStep(step) {
      LeasingSparesOthers(reg, step, other);
    } else {
      MoveSparesOthers(reg, step, other);
    }
  }

  lemma WriteSparesOthers(reg: Registry, step: Step, other: string)
    requires Enabled(reg, step) && other !in Touched(step) && (Issues(step) || Edits(step))
    ensures SameAt(reg, Next(reg, step), other)
  {
  }

  lemma LeasingSparesOthers(reg: Registry, step: Step, other: string)
    requires Enabled(reg, step) && other !in Touched(step) && LeaseStep(step)
    ensures SameAt(reg, Next(reg, step), other)
  {
  }

  lemma MoveSparesOthers(reg: Registry, step: Step, other: string)
    requires Enabled(reg, step) && other !in Touched(step) && !Issues(step) && !Edits(step) && !LeaseStep(step)
    ensures SameAt(reg, Next(reg, step), other)
  {
  }

  // Removing, retiring and forgetting take the row away, and ending a lease or
  // rolling back the lease; a rename carries the row over unchanged.
  lemma WhatIsEndedIsGone(reg: Registry, step: Step)
    requires Enabled(reg, step)
    ensures step.Remove? || step.Retire? || step.Forget? ==> step.id !in Next(reg, step).rows
    ensures step.EndLease? || step.RollBack? ==> !Leased(Next(reg, step), step.id)
    ensures step.Rename? ==>
              && step.from !in Next(reg, step).rows
              && step.to in Next(reg, step).rows && Next(reg, step).rows[step.to] == reg.rows[step.from]
              && step.to !in Next(reg, step).dormant
  {
  }

  // A pair that is recovered or moved to is the row's afterwards, and the rest
  // of the row is as it was. A row keeps its backend when it moves, and takes
  // one only where it had nothing pending and no pair.
  lemma PairsAreWritten(reg: Registry, step: Step)
    requires Enabled(reg, step) && (step.RecoverIdentity? || step.Rebind?)
    ensures var before, after := reg.rows[step.id], Next(reg, step).rows[step.id];
            && HoldsPair(after, step.pair)
            && after.(backend := before.backend, sid := before.sid) == before
            && before.credential.None?
            && (if step.Rebind? then before.sid.Some? && after.backend == before.backend
                else before.backend.None? && before.sid.None? && before.reservation.None?
                     && step.pair.backend != "" && step.pair.sessionId != "" && !Leased(reg, step.id))
  {
  }

  // Registering a session again neither binds nor unbinds it.
  lemma RegisteringKeepsThePair(reg: Registry, id: string, row: Row)
    requires Enabled(reg, Register(id, row)) && IsLocal(reg, id)
    ensures var after := Next(reg, Register(id, row)).rows[id];
            && (Complete(after) <==> Complete(reg.rows[id]))
            && (Complete(after) ==> after.backend == reg.rows[id].backend && after.sid == reg.rows[id].sid)
            && after.incarnation > reg.mark
  {
  }

  // An announcement leaves a row that is there its origin and pane, and gives it
  // the wire's other fields; a row it brings is foreign and has no pane.
  lemma AnnouncingKeepsOriginAndPane(reg: Registry, id: string, wire: Option<Row>)
    requires Enabled(reg, Announce(id, wire))
    ensures var after := Next(reg, Announce(id, wire));
            && id in after.rows
            && after.rows[id].isLocal == IsLocal(reg, id)
            && after.rows[id].pane == (if id in reg.rows then reg.rows[id].pane else None)
            && (wire.Some? ==>
                  after.rows[id].(isLocal := wire.value.isLocal, pane := wire.value.pane) == wire.value)
            && (wire.None? && id in reg.rows ==> after == reg)
  {
  }

  // An operation is claimed for the row in place, with nothing staged; a stop
  // knows its pair, pane and project at once. What is recorded later is what
  // was said, and nothing else of the lease changes.
  lemma LeasesSayWhatWasSaid(reg: Registry, step: Step)
    requires Enabled(reg, step) && LeaseStep(step) && !step.EndLease?
    ensures var id, after := step.id, Next(reg, step);
            && id in after.leases && after.rows == reg.rows && after.dormant == reg.dormant
            && var lease := after.leases[id];
               && (step.ClaimRestart? || step.ClaimStop? ==>
                     && lease.owner == reg.rows[id].incarnation
                     && lease.target.None? && lease.previous.None? && lease.project == reg.rows[id].projectDir
                     && (lease.phase.Stopping? <==> step.ClaimStop?) && !lease.phase.Starting?)
               && (step.ClaimRestart? ==> lease.pair.None? && lease.pane.None? && lease.paneOwner.None?)
               && (step.ClaimStop? ==>
                     && lease.pane == reg.rows[id].pane && lease.paneOwner == Some(lease.owner)
                     && (lease.pair.Some? <==> Complete(reg.rows[id]))
                     && (lease.pair.Some? ==> HoldsPair(reg.rows[id], lease.pair.value)))
               && (step.RecordBackend? ==> lease == reg.leases[id].(pair := Some(step.pair)))
               && (step.ClearBackend? ==> lease == reg.leases[id].(pair := None))
               && (step.RecordPane? ==>
                     lease == reg.leases[id].(pane := Some(step.pane), paneOwner := Some(step.paneOwner)))
               && (step.RecordProject? ==> lease == reg.leases[id].(project := Some(step.project)))
  {
  }

  // ----- what is refused -----

  // One operation at a time on a session: while its lease is held nothing else
  // starts, registers, recovers, claims, renames or retires it, and it is removed
  // only by a stop. A stop in progress also keeps launches and pairs from it.
  lemma OneOperationAtATime(reg: Registry, step: Step, id: string)
    requires Enabled(reg, step) && id in Touched(step) && Leased(reg, id)
    ensures !(step.ReserveStart? || step.Register? || step.Recover? || step.ClaimRestart? || step.ClaimStop?
              || step.RecoverIdentity? || step.Rename? || step.Retire?)
    ensures step.Remove? ==> reg.leases[id].phase.Stopping?
    ensures step.CommitStart? ==> reg.leases[id].phase.Starting?
    ensures reg.leases[id].phase.Stopping? ==>
              && !(step.CommitStart? || step.Stage? || step.Bind? || step.Rebind? || step.Finalize? || step.RollBack?)
              && (step.Commit? ==> Next(reg, step) == reg)
  {
  }

  // A row of another origin is only rewritten or withdrawn by announcements, or
  // replaced by a registration of that name; and only such a row is withdrawn.
  lemma ForeignRowsAreLeftAlone(reg: Registry, step: Step, id: string)
    requires Enabled(reg, step) && id in reg.rows
    ensures !reg.rows[id].isLocal && !(id in Next(reg, step).rows && Next(reg, step).rows[id] == reg.rows[id]) ==>
              step.id == id && (step.Announce? || step.Forget? || step.Register?)
    ensures step.Forget? && step.id == id ==> !reg.rows[id].isLocal
  {
  }

  // When the numbers are used up nothing is handed out, and no number handed
  // out has more than 64 bits.
  lemma NumbersEnd(reg: Registry, step: Step)
    requires Enabled(reg, step) && Issues(step)
    ensures reg.mark < Next(reg, step).mark <= U64_MAX
  {
  }

  // A start goes only to a name nobody has, a rename too, and neither it nor a
  // registration gives a session a name with a slash.
  lemma NamesAreTakenOnce(reg: Registry, step: Step)
    requires Enabled(reg, step)
    ensures step.ReserveStart? || step.CommitStart? || step.Recover? ==> step.id !in reg.rows
    ensures step.Rename? ==> step.to !in reg.rows && '/' !in step.to
    ensures step.Register? ==> '/' !in step.id
    ensures step.Announce? && step.wire.Some? ==> '/' in step.id
  {
  }

  // What an operation has recorded is not silently replaced: its project stays,
  // and so does its backend session until it is cleared.
  lemma RecordsAreNotReplaced(reg: Registry, step: Step)
    requires Enabled(reg, step)
    ensures step.RecordProject? && reg.leases[step.id].project.Some? ==> Next(reg, step).leases == reg.leases
    ensures step.RecordBackend? && reg.leases[step.id].pair.Some? ==>
              reg.leases[step.id].pair.value.sessionId == step.pair.sessionId
    ensures step.RecordPane? ==> OwnsLease(reg.leases[step.id], step.paneOwner)
    ensures step.RecordBackend? || step.ClearBackend? ==> reg.leases[step.id].target.Some?
  {
    if step.RecordProject? && reg.leases[step.id].project.Some? {
      assert reg.leases[step.id].(project := Some(step.project)) == reg.leases[step.id];
    }
  }

  // ----- what is possible -----

  // A session with nothing in progress can be restarted, removed, retired,
  // finalized and renamed to any free plain name, and stopped if it has a pane.
  lemma IdleSessionIsManageable(reg: Registry, id: string, to: string, meta: Row)
    requires IsLocal(reg, id) && !Leased(reg, id)
    ensures Enabled(reg, ClaimRestart(id)) && Enabled(reg, Remove(id)) && Enabled(reg, Retire(id))
    ensures Enabled(reg, ClaimStop(id)) <==> reg.rows[id].pane.Some?
    ensures Enabled(reg, Finalize(id, meta)) <==> meta.backend.Some?
    ensures Enabled(reg, Rename(id, to)) <==> to !in reg.rows && to !in reg.leases && '/' !in to
    ensures reg.rows[id].pane.Some? ==> Enabled(Next(reg, ClaimStop(id)), Remove(id))
  {
  }

  // A restart that is claimed, staged and rolled back leaves the registry as it
  // was but for the number it has used; in between it can record and clear a
  // backend session, and its pane and project.
  lemma RolledBackRestartLeavesNoTrace(
      reg: Registry, id: string, launch: Launch, pair: Snapshot.Pair, pane: string, project: string)
    requires IsLocal(reg, id) && !Leased(reg, id) && reg.rows[id].reservation.None?
    requires launch.leased && reg.mark < U64_MAX
    ensures Enabled(reg, ClaimRestart(id))
    ensures var claimed, stage := Next(reg, ClaimRestart(id)), Stage(id, None, launch);
            && Enabled(claimed, stage)
            && Enabled(claimed, RecordPane(id, pane, reg.rows[id].incarnation))
            && (reg.rows[id].projectDir.None? ==> Enabled(claimed, RecordProject(id, project)))
            && var staged := Next(claimed, stage);
               && Enabled(staged, RecordBackend(id, pair)) && Enabled(staged, ClearBackend(id))
               && Enabled(staged, RecordPane(id, pane, reg.mark + 1))
               && Enabled(staged, RollBack(id))
               && Next(staged, RollBack(id)) == reg.(mark := reg.mark + 1)
  {
    ClaimedCanStage(reg, id, launch, pane, project);
    StagedCanRollBack(reg, id, launch, pair, pane);
  }

  function ClaimedRestart(reg: Registry, id: string): Registry
    requires id in reg.rows
  {
    reg.(leases := reg.leases[id := RestartLease(reg.rows[id])])
  }

  lemma ClaimedCanStage(reg: Registry, id: string, launch: Launch, pane: string, project: string)
    requires IsLocal(reg, id) && !Leased(reg, id) && reg.rows[id].reservation.None?
    requires launch.leased && reg.mark < U64_MAX
    ensures Enabled(reg, ClaimRestart(id)) && Next(reg, ClaimRestart(id)) == ClaimedRestart(reg, id)
    ensures var claimed := ClaimedRestart(reg, id);
            && Enabled(claimed, Stage(id, None, launch))
            && Enabled(claimed, RecordPane(id, pane, reg.rows[id].incarnation))
            && (reg.rows[id].projectDir.None? ==> Enabled(claimed, RecordProject(id, project)))
  {
  }

  lemma StagedCanRollBack(reg: Registry, id: string, launch: Launch, pair: Snapshot.Pair, pane: string)
    requires IsLocal(reg, id) && !Leased(reg, id) && launch.leased
    ensures var staged := WithLaunch(ClaimedRestart(reg, id), id, launch);
            && Enabled(staged, RecordBackend(id, pair)) && Enabled(staged, ClearBackend(id))
            && Enabled(staged, RecordPane(id, pane, reg.mark + 1))
            && Enabled(staged, RollBack(id))
            && Next(staged, RollBack(id)) == reg.(mark := reg.mark + 1)
  {
    var staged := WithLaunch(ClaimedRestart(reg, id), id, launch);
    assert staged.leases - {id} == reg.leases;
    assert staged.rows[id := reg.rows[id]] == reg.rows;
  }

  // A start that is reserved, committed and ended adds its row; one that comes
  // to nothing leaves the registry as it was but for the number it has used.
  lemma StartAddsItsRow(reg: Registry, id: string, row: Row)
    requires id !in reg.rows && id !in reg.leases && reg.mark < U64_MAX
    requires row.isLocal && row.incarnation == reg.mark + 1 && Free(reg, id, row)
    ensures Enabled(reg, ReserveStart(id))
    ensures var reserved := Next(reg, ReserveStart(id));
            && Enabled(reserved, EndLease(id)) && Next(reserved, EndLease(id)) == reg.(mark := reg.mark + 1)
            && Enabled(reserved, CommitStart(id, row))
            && var committed := Next(reserved, CommitStart(id, row));
               && Enabled(committed, EndLease(id))
               && Next(committed, EndLease(id)) ==
                  Registry(reg.rows[id := row], reg.dormant - {id}, reg.leases, reg.mark + 1)
  {
    var reserved := Next(reg, ReserveStart(id));
    assert reserved.leases - {id} == reg.leases;
    assert reserved.leases[id] == Lease(Starting, reg.mark + 1, None, None, None, None, None, None);
  }

  // ----- dormancy -----

  // A session that ends can come back: after a recoverable row is retired, it
  // can be recovered under its own pair with the next incarnation, and then
  // nothing but its row has changed.
  lemma RetiredComesBack(reg: Registry, id: string, row: Row)
    requires Inv(reg) && Exclusive(reg) && reg.mark < U64_MAX
    requires IsLocal(reg, id) && !Leased(reg, id) && Recoverable(reg.rows[id])
    requires row.isLocal && row.incarnation == reg.mark + 1
    requires row.backend == reg.rows[id].backend && row.sid == reg.rows[id].sid
    ensures Enabled(reg, Retire(id))
    ensures var retired := Next(reg, Retire(id));
            && retired.rows == reg.rows - {id}
            && Enabled(retired, Recover(id, row))
            && Next(retired, Recover(id, row)) == Registry(reg.rows[id := row], reg.dormant, reg.leases, reg.mark + 1)
  {
    var retired := Retired(reg, id);
    assert Next(reg, Retire(id)) == retired;
    RetiredCanRecover(reg, id, row);
    assert retired.rows[id := row] == reg.rows[id := row];
    assert id !in reg.dormant && retired.dormant - {id} == reg.dormant;
  }

  lemma RetiredCanRecover(reg: Registry, id: string, row: Row)
    requires Exclusive(reg) && reg.mark < U64_MAX
    requires IsLocal(reg, id) && !Leased(reg, id) && Recoverable(reg.rows[id])
    requires row.isLocal && row.incarnation == reg.mark + 1
    requires row.backend == reg.rows[id].backend && row.sid == reg.rows[id].sid
    ensures CanRecover(Retired(reg, id), id, row)
  {
    var retired, pair := Retired(reg, id), Snapshot.Pair(row.backend.value, row.sid.value);
    assert HoldsPair(reg.rows[id], pair) && !HeldElsewhere(reg, id, pair);
    assert HeldByRow(retired, id, pair) ==> HeldByRow(reg, id, pair);
    assert forall d :: d in reg.dormant ==> !HoldsPair(reg.dormant[d], pair);
  }

  lemma RecoveredHoldsAlone(reg: Registry, id: string, row: Row)
    requires Exclusive(reg) && IsLocal(reg, id) && Complete(reg.rows[id])
    requires row.backend == reg.rows[id].backend && row.sid == reg.rows[id].sid
    ensures !HeldElsewhere(reg.(rows := reg.rows[id := row]), id, Snapshot.Pair(row.backend.value, row.sid.value))
  {
    var back, pair := reg.(rows := reg.rows[id := row]), Snapshot.Pair(row.backend.value, row.sid.value);
    assert HoldsPair(reg.rows[id], pair) && !HeldElsewhere(reg, id, pair);
    assert HeldByRow(back, id, pair) ==> HeldByRow(reg, id, pair);
  }

  // ----- names -----

  ghost predicate PlainNames(reg: Registry) {
    && (forall id :: IsLocal(reg, id) ==> '/' !in id)
    && (forall id :: id in reg.leases || id in reg.dormant ==> '/' !in id)
  }

  // Announced keys have a slash. While no local name has one, no announcement
  // reaches a local row; and only a start can give a local row such a name.
  lemma PlainNamesStay(reg: Registry, step: Step)
    requires PlainNames(reg) && Enabled(reg, step)
    ensures !Captures(reg, step)
    ensures PlainNames(Next(reg, step)) <==> !(step.ReserveStart? && '/' in step.id)
  {
    if step.ReserveStart? {
      assert step.id in Next(reg, step).leases;
    }
  }
}
