// Runs of a whole daemon: anything in Lifecycle can happen, snapshots are
// written, and the daemon can crash and load the last one.

module DaemonRuns {
  import opened Options
  import opened SessionRow
  import opened BackendBinding
  import opened Lifecycle
  import opened Durable
  import Adoption
  import L = LoadSave

  // disk: the last snapshot written. saved: every snapshot there ever was.
  datatype Sys = Sys(reg: Registry, disk: Registry, saved: seq<Registry>)

  datatype SysStep =
    | Live(step: Step)
    | Save
    | Reload           // crash and load what was saved

  // A row staged under a restart lease gives way to the one it would fall back
  // to; credentials and reservations are not on disk.
  function Restored(disk: Registry, id: string): Row
    requires id in disk.rows
  {
    var row :=
      if id in disk.leases && disk.leases[id].previous.Some?
         && disk.leases[id].target == Some(disk.rows[id].incarnation)
      then disk.leases[id].previous.value else disk.rows[id];
    row.(credential := None, reservation := None)
  }

  // A row that an interrupted operation put there, and that it takes away with it.
  predicate Discarded(disk: Registry, id: string)
    requires id in disk.rows
  {
    id in disk.leases &&
    var lease, row := disk.leases[id], Restored(disk, id);
    match lease.phase
    case Starting => row.incarnation == lease.owner
    case Restarting =>
      || (lease.pane.Some? && lease.pane == row.pane && lease.paneOwner == Some(row.incarnation))
      || (if lease.target.Some? then lease.target.value == row.incarnation else row.incarnation != lease.owner)
    case Stopping =>
      row.incarnation == lease.owner && lease.pane == row.pane && lease.paneOwner == Some(lease.owner)
  }

  // All leases are released. Rows whose pane has died meanwhile are retired
  // right after, by steps of their own.
  function Reloaded(disk: Registry): Registry {
    Registry(map id | id in disk.rows && disk.rows[id].isLocal && !Discarded(disk, id) :: Restored(disk, id),
             disk.dormant, map[], disk.mark)
  }

  // A daemon starts only from a snapshot the validator accepts.
  ghost predicate SysEnabled(sys: Sys, step: SysStep) {
    match step
    case Live(s) => Enabled(sys.reg, s)
    case Save => true
    case Reload => Loadable(sys.disk)
  }

  function SysNext(sys: Sys, step: SysStep): Sys
    requires step.Live? ==> Enabled(sys.reg, step.step)
  {
    match step
    case Live(s) => sys.(reg := Next(sys.reg, s))
    case Save => Sys(sys.reg, Written(sys.reg), sys.saved + [Written(sys.reg)])
    case Reload => sys.(reg := Reloaded(sys.disk))
  }

  // Up to the first step that is not possible.
  ghost function Run(sys: Sys, steps: seq<SysStep>): Sys
    decreases |steps|
  {
    if steps == [] || !SysEnabled(sys, steps[0]) then sys else Run(SysNext(sys, steps[0]), steps[1..])
  }

  ghost predicate OrderlyStep(sys: Sys, step: SysStep) {
    SysEnabled(sys, step) && (step.Live? ==> Orderly(sys.reg, step.step))
  }

  // Runs whose announcements, if they reach a local row, are orderly.
  ghost predicate Runs(sys: Sys, steps: seq<SysStep>)
    decreases |steps|
  {
    steps == [] || (OrderlyStep(sys, steps[0]) && Runs(SysNext(sys, steps[0]), steps[1..]))
  }

  lemma FirstThen(sys: Sys, step: SysStep, rest: seq<SysStep>)
    requires OrderlyStep(sys, step) && Runs(SysNext(sys, step), rest)
    ensures Runs(sys, [step] + rest) && Run(sys, [step] + rest) == Run(SysNext(sys, step), rest)
  {
    assert ([step] + rest)[1..] == rest;
  }

  // ----- what every run keeps -----

  ghost predicate SysInv(sys: Sys) {
    Inv(sys.reg) && Inv(sys.disk) && sys.disk.mark <= sys.reg.mark
  }

  lemma NumbersBelowMark(reg: Registry)
    requires Inv(reg)
    ensures forall n :: n in Numbers(reg) ==> n <= reg.mark
    ensures Written(reg).mark == reg.mark
  {
    forall l | l in reg.leases
      ensures forall n :: n in LeaseNumbers(reg.leases[l]) ==> n <= reg.mark
    {
      BelowMark(reg, l);
      assert LeaseOk(reg, l) && reg.leases[l].owner in Recorded(reg, l);
    }
    forall id | IsLocal(reg, id)
      ensures reg.rows[id].incarnation <= reg.mark
    {
      BelowMark(reg, id);
    }
  }

  lemma WrittenKeepsInv(reg: Registry)
    requires Inv(reg)
    ensures Inv(Written(reg)) && Written(reg).mark == reg.mark
  {
    NumbersBelowMark(reg);
    var kept := Written(reg);
    forall id
      ensures Recorded(kept, id) == Recorded(reg, id)
      ensures FallbackOk(kept, id) && LeaseOk(kept, id)
    {
      assert FallbackOk(reg, id) && LeaseOk(reg, id);
    }
  }

  lemma ReloadedRecords(disk: Registry, id: string)
    requires Inv(disk)
    ensures Recorded(Reloaded(disk), id) <= Recorded(disk, id)
  {
    assert FallbackOk(disk, id) && LeaseOk(disk, id);
  }

  lemma ReloadedKeepsInv(disk: Registry)
    requires Inv(disk)
    ensures Inv(Reloaded(disk))
  {
    forall id
      ensures Recorded(Reloaded(disk), id) <= Recorded(disk, id)
    {
      ReloadedRecords(disk, id);
    }
    assert forall id :: IsLocal(Reloaded(disk), id) ==> IsLocal(disk, id);
  }

  // Saving, crashing and reloading keep incarnations apart, as every orderly
  // step does.
  lemma SysStepKeepsInv(sys: Sys, step: SysStep)
    requires SysInv(sys) && OrderlyStep(sys, step)
    ensures SysInv(SysNext(sys, step))
  {
    match step
    case Live(s) =>
      StepIsNumberedIff(sys.reg, s);
      StepKeepsMark(sys.reg, s);
    case Save => WrittenKeepsInv(sys.reg);
    case Reload => ReloadedKeepsInv(sys.disk);
  }

  lemma {:induction false} SysRunKeepsInv(sys: Sys, steps: seq<SysStep>)
    requires SysInv(sys) && Runs(sys, steps)
    ensures SysInv(Run(sys, steps))
    decreases |steps|
  {
    if steps != [] {
      SysStepKeepsInv(sys, steps[0]);
      SysRunKeepsInv(SysNext(sys, steps[0]), steps[1..]);
    }
  }

  // What a legacy file loads as: rows that all carry incarnation 0, nothing
  // dormant and nothing in progress. Runs can start there.
  lemma LegacyStartIsNumbered(reg: Registry, saved: seq<Registry>)
    requires reg.leases == map[] && reg.dormant == map[]
    requires forall id :: IsLocal(reg, id) ==> reg.rows[id].incarnation == 0
    ensures SysInv(Sys(reg, reg, saved))
  {
  }

  // ----- what comes back -----

  // The recorded pane of a lease is this row's.
  predicate PaneIsRows(lease: Lease, row: Row) {
    lease.pane.Some? && lease.pane == row.pane && lease.paneOwner == Some(row.incarnation)
  }

  // The row that a reload puts back for an id, if any: a session with nothing in
  // progress as it was; the incumbent of a staged restart; the row of a restart
  // that has staged nothing. A start brings nothing back, and neither does an
  // operation whose recorded pane the row has.
  predicate ComesBackAs(reg: Registry, id: string, row: Row) {
    IsLocal(reg, id) &&
    if !Leased(reg, id) then row == reg.rows[id]
    else
      var lease := reg.leases[id];
      match lease.phase
      case Starting => row == reg.rows[id] && row.incarnation != lease.owner
      case Restarting =>
        && !PaneIsRows(lease, row)
        && (if CanRollBack(reg, id) then row == lease.previous.value
            else row == reg.rows[id] && (lease.target.None? ==> row.incarnation == lease.owner))
      case Stopping =>
        row == reg.rows[id] &&
        !(row.incarnation == lease.owner && lease.pane == row.pane && lease.paneOwner == Some(lease.owner))
  }

  // A crash right after a save loses no session that nothing was being done to,
  // and of the others brings back exactly what ComesBackAs says, without
  // credentials and reservations; dormant sessions stay, and no lease does.
  lemma SavedComesBack(reg: Registry, id: string)
    requires Inv(reg)
    ensures var back := Reloaded(Written(reg));
            && (id in back.rows <==> exists row :: ComesBackAs(reg, id, row))
            && (forall row :: ComesBackAs(reg, id, row) ==>
                  id in back.rows && back.rows[id] == row.(credential := None, reservation := None))
            && back.dormant == reg.dormant && back.leases == map[] && back.mark == reg.mark
  {
    WrittenKeepsInv(reg);
    assert LeaseOk(reg, id) && FallbackOk(reg, id);
    if IsLocal(reg, id) {
      var row := if CanRollBack(reg, id) then reg.leases[id].previous.value else reg.rows[id];
      assert ComesBackAs(reg, id, row) <==> exists r :: ComesBackAs(reg, id, r);
    }
  }

  // ----- starting again -----

  lemma WrittenIsLoadableIff(reg: Registry)
    ensures Loadable(Written(reg)) <==> Loadable(reg)
  {
    assert forall pair, id, n :: Claimed(Written(reg), pair, id, n) <==> Claimed(reg, pair, id, n);
  }

  lemma ReloadedIsLoadable(disk: Registry)
    requires Inv(disk) && Loadable(disk)
    ensures Loadable(Reloaded(disk))
  {
    forall pair, id, n | Claimed(Reloaded(disk), pair, id, n)
      ensures Claimed(disk, pair, id, n)
    {
    }
    FewerClaims(disk, Reloaded(disk));
  }

  ghost predicate FittingRun(sys: Sys, steps: seq<SysStep>)
    decreases |steps|
  {
    steps == [] || (
      && OrderlyStep(sys, steps[0])
      && (steps[0].Live? ==> Fits(sys.reg, steps[0].step))
      && FittingRun(SysNext(sys, steps[0]), steps[1..]))
  }

  // Over every run of steps that fit, the daemon can crash at any point and
  // start again from whatever it wrote last.
  lemma {:induction false} FittingRunsCanRestart(sys: Sys, steps: seq<SysStep>)
    requires SysInv(sys) && Loadable(sys.reg) && Loadable(sys.disk) && FittingRun(sys, steps)
    ensures Loadable(Run(sys, steps).reg) && SysEnabled(Run(sys, steps), Reload)
    decreases |steps|
  {
    if steps != [] {
      SysStepKeepsInv(sys, steps[0]);
      match steps[0] {
        case Live(s) => StepIsLoadableIff(sys.reg, s);
        case Save => WrittenIsLoadableIff(sys.reg);
        case Reload => ReloadedIsLoadable(sys.disk);
      }
      FittingRunsCanRestart(SysNext(sys, steps[0]), steps[1..]);
    }
  }

  // ----- handing out number after number -----

  predicate Unannounced(steps: seq<SysStep>) {
    forall i :: 0 <= i < |steps| && steps[i].Live? ==> !steps[i].step.Announce?
  }

  // Starts under a free name that come to nothing bring the mark to any number.
  lemma {:induction false} MarkReaches(sys: Sys, name: string, m: nat) returns (steps: seq<SysStep>)
    requires sys.reg.mark <= m <= U64_MAX
    requires name !in sys.reg.rows && name !in sys.reg.leases
    ensures Runs(sys, steps) && Unannounced(steps)
    ensures var end := Run(sys, steps);
            && end.reg == sys.reg.(mark := m) && end.disk == sys.disk && end.saved == sys.saved
    decreases m - sys.reg.mark
  {
    if m == sys.reg.mark {
      steps := [];
    } else {
      var start, stop := Live(ReserveStart(name)), Live(EndLease(name));
      var reserved := SysNext(sys, start);
      var ended := SysNext(reserved, stop);
      assert ended.reg == sys.reg.(mark := sys.reg.mark + 1);
      var rest := MarkReaches(ended, name, m);
      FirstThen(reserved, stop, rest);
      FirstThen(sys, start, [stop] + rest);
      steps := [start] + ([stop] + rest);
    }
  }

  // So a number above the mark can be the next one handed out.
  lemma ReachesNext(sys: Sys, n: nat) returns (steps: seq<SysStep>, name: string)
    requires sys.reg.mark < n <= U64_MAX
    ensures Runs(sys, steps) && Unannounced(steps)
    ensures var end := Run(sys, steps);
            && end.reg == sys.reg.(mark := n - 1) && end.disk == sys.disk && end.saved == sys.saved
            && Enabled(end.reg, ReserveStart(name))
  {
    name := Adoption.FreshName(sys.reg.rows.Keys + sys.reg.leases.Keys);
    assert name !in sys.reg.rows.Keys + sys.reg.leases.Keys;
    steps := MarkReaches(sys, name, n - 1);
  }
}
