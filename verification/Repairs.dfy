// Runs of one session's row with any number of repair coordinators in flight.
// Each coordinator reserves the row, launches outside the lock and reads the
// outcome; in between, launches are staged, bound, completed and rolled back,
// the row is replaced or removed, other coordinators come and go, and the
// daemon restarts.

module Repairs {
  import opened Options
  import Snapshot
  import opened SessionRow

  // The row a staged restart would fall back to, and the incarnation it staged.
  datatype Incumbent = Incumbent(row: Row, target: nat)

  // repairs: the coordinators in flight, with the reservation each one made.
  // abandoned: reservations that were still recorded when theirs finished.
  // reports: what coordinators that finished have reported.
  datatype Sys = Sys(
    row: Option<Row>,
    incumbent: Option<Incumbent>,
    mark: nat,
    repairs: map<nat, Reservation>,
    abandoned: set<Reservation>,
    reports: map<nat, RepairOutcome>)

  datatype Step =
    | Reserve(c: nat, backend: string)
    | StageFor(c: nat, launch: Launch)             // a repair's own launch
    | StagePlain(launch: Launch)                   // any other launch
    | Bind(pair: Snapshot.Pair)
    | Adopt(pair: Snapshot.Pair, credential: Option<string>)
    | Finalize(meta: Row)                          // final metadata of a launch, carried over from before it
    | RollBack
    | Settle                                       // the restart lease ends and forgets the incumbent
    | Register(row: Row)                             // a new row of the same id
    | Remove
    | Elsewhere(mark: nat)                         // incarnations handed out to other sessions
    | Restart(restored: Option<Row>, from: nat)    // of the daemon, on what it had saved
    | Finish(c: nat, outcome: RestartOutcome)

  function Expected(sys: Sys, step: Step): Option<Reservation> {
    if step.StageFor? && step.c in sys.repairs then Some(sys.repairs[step.c]) else None
  }

  predicate Enabled(sys: Sys, step: Step) {
    match step
    case Reserve(c, backend) => c !in sys.repairs && sys.row.Some? && RefuseRow(sys.row.value, backend).None?
    case StageFor(c, launch) => c in sys.repairs && CanStageHere(sys, step, launch)
    case StagePlain(launch) => CanStageHere(sys, step, launch)
    case Bind(pair) => sys.row.Some? && sys.row.value.isLocal && sys.row.value.sid.None?
    case Adopt(pair, _) => sys.row.Some? && sys.row.value.isLocal && !Complete(sys.row.value)
    case Finalize(_) => sys.row.Some? && sys.row.value.isLocal
    case RollBack =>
      && sys.row.Some? && sys.row.value.isLocal
      && sys.incumbent.Some? && sys.row.value.incarnation == sys.incumbent.value.target
    case Settle => true
    case Register(row) => sys.mark < U64_MAX && row.incarnation == sys.mark + 1 && row.reservation.None?
    case Remove => true
    case Elsewhere(mark) => sys.mark <= mark
    case Restart(row, from) => row.Some? ==> row.value.reservation.None? && row.value.incarnation <= from
    case Finish(c, _) => c in sys.repairs
  }

  predicate CanStageHere(sys: Sys, step: Step, launch: Launch) {
    && sys.row.Some?
    && CanStageRow(sys.row.value, Expected(sys, step))
    && (launch.leased ==> sys.incumbent.None?)
    && sys.mark < U64_MAX
  }

  function Staging(sys: Sys, launch: Launch): Sys
    requires sys.row.Some?
  {
    var row := sys.row.value;
    var next := sys.mark + 1;
    sys.(row := Some(LaunchedRow(row, launch, next)),
         incumbent := if launch.leased then Some(Incumbent(row, next)) else sys.incumbent,
         mark := next)
  }

  predicate Held(row: Option<Row>, r: Reservation) {
    row.Some? && Holds(row.value, r)
  }

  function IncumbentRow(sys: Sys): Option<Row> {
    if sys.incumbent.Some? then Some(sys.incumbent.value.row) else None
  }

  function Finished(sys: Sys, c: nat, outcome: RestartOutcome): Sys
    requires c in sys.repairs
  {
    var r := sys.repairs[c];
    var row := if sys.row.Some? && outcome.RestartFailure? then Some(Released(sys.row.value, r)) else sys.row;
    sys.(row := row,
         repairs := sys.repairs - {c},
         abandoned := if Held(row, r) || Held(IncumbentRow(sys), r) then sys.abandoned + {r} else sys.abandoned,
         reports := sys.reports[c := if sys.row.Some? then Classified(sys.row.value, r, outcome) else Superseded])
  }

  function Next(sys: Sys, step: Step): Sys
    requires Enabled(sys, step)
  {
    match step
    case Reserve(c, _) =>
      sys.(row := Some(ReservedRow(sys.row.value)), repairs := sys.repairs[c := FreshReservation(sys.row.value)])
    case StageFor(_, launch) => Staging(sys, launch)
    case StagePlain(launch) => Staging(sys, launch)
    case Bind(pair) => sys.(row := Some(BoundRow(sys.row.value, pair)))
    case Adopt(pair, credential) => sys.(row := Some(AdoptedRow(sys.row.value, pair, credential)))
    case Finalize(meta) => sys.(row := Some(FinalizedRow(sys.row.value, meta)))
    case RollBack => sys.(row := Some(sys.incumbent.value.row), incumbent := None)
    case Settle => sys.(incumbent := None)
    case Register(row) => sys.(row := Some(row), mark := sys.mark + 1)
    case Remove => sys.(row := None)
    case Elsewhere(mark) => sys.(mark := mark)
    case Restart(row, from) => Sys(row, None, from, map[], {}, map[])
    case Finish(c, outcome) => Finished(sys, c, outcome)
  }

  // ----- invariant -----

  predicate Issued(sys: Sys, c: nat) {
    c in sys.repairs && sys.repairs[c].phase.PreStage? && sys.repairs[c].incarnation <= sys.mark
  }

  // No two coordinators reserved the same incarnation.
  ghost predicate Distinct(repairs: map<nat, Reservation>) {
    forall c, d :: c in repairs && d in repairs && repairs[c].incarnation == repairs[d].incarnation ==> c == d
  }

  // A reservation not yet staged is for this very row.
  predicate Current(row: Row) {
    row.reservation.Some? && row.reservation.value.phase.PreStage? ==>
      row.reservation.value == FreshReservation(row)
  }

  // A row of the incarnation a coordinator reserved still carries its
  // reservation, unless its pair was completed.
  predicate Keeps(row: Row, r: Reservation) {
    row.incarnation == r.incarnation ==> Complete(row) || row.reservation == Some(r)
  }

  ghost predicate Accounted(sys: Sys, row: Row) {
    row.reservation.Some? ==>
      (exists c :: Issued(sys, c) && SameRepair(sys.repairs[c], row.reservation.value))
      || row.reservation.value.(phase := PreStage) in sys.abandoned
  }

  ghost predicate RowOk(sys: Sys, row: Row) {
    && row.incarnation <= sys.mark
    && Current(row)
    && Accounted(sys, row)
    && (forall c :: c in sys.repairs ==> Keeps(row, sys.repairs[c]))
  }

  ghost predicate Inv(sys: Sys) {
    && (forall c :: c in sys.repairs ==> Issued(sys, c))
    && Distinct(sys.repairs)
    && (sys.row.Some? ==> RowOk(sys, sys.row.value))
    && (sys.incumbent.Some? ==> RowOk(sys, sys.incumbent.value.row))
    && (sys.row.Some? && sys.incumbent.Some? ==> sys.incumbent.value.row.incarnation < sys.row.value.incarnation)
  }

  // Raising the mark, and adding coordinators or abandoned reservations, hurts no row.
  lemma RowStaysOk(a: Sys, b: Sys, row: Row)
    requires RowOk(a, row)
    requires a.mark <= b.mark && a.repairs == b.repairs && a.abandoned <= b.abandoned
    ensures RowOk(b, row)
  {
    assert forall c :: Issued(a, c) ==> Issued(b, c);
  }

  lemma ReserveKeepsInv(sys: Sys, step: Step)
    requires Inv(sys) && Enabled(sys, step) && step.Reserve?
    ensures Inv(Next(sys, step))
  {
    var after, row := Next(sys, step), sys.row.value;
    var r := FreshReservation(row);
    assert forall d :: d in sys.repairs ==> Issued(sys, d) && Keeps(row, sys.repairs[d]);
    assert forall d :: d in sys.repairs ==> sys.repairs[d].incarnation != row.incarnation;
    assert forall d :: Issued(sys, d) ==> Issued(after, d) && after.repairs[d] == sys.repairs[d];
    assert Issued(after, step.c) && after.repairs[step.c] == r;
    assert RowOk(after, after.row.value);
    if sys.incumbent.Some? {
      var kept := sys.incumbent.value.row;
      assert RowOk(sys, kept);
    }
  }

  lemma StagingKeepsInv(sys: Sys, step: Step, launch: Launch)
    requires Inv(sys) && CanStageHere(sys, step, launch)
    ensures Inv(Staging(sys, launch))
  {
    var after, row := Staging(sys, launch), sys.row.value;
    assert RowOk(sys, row);
    RowStaysOk(sys, after, row);
    assert forall c :: c in sys.repairs ==> Issued(sys, c) && Issued(after, c);
    if sys.incumbent.Some? {
      RowStaysOk(sys, after, sys.incumbent.value.row);
    }
    assert Accounted(after, after.row.value);
  }

  lemma RowStepKeepsInv(sys: Sys, step: Step)
    requires Inv(sys) && Enabled(sys, step) && (step.Bind? || step.Adopt? || step.Finalize?)
    ensures Inv(Next(sys, step))
  {
    var after := Next(sys, step);
    assert RowOk(sys, sys.row.value);
    assert forall c :: Issued(sys, c) <==> Issued(after, c);
    assert RowOk(after, after.row.value);
    if sys.incumbent.Some? {
      RowStaysOk(sys, after, sys.incumbent.value.row);
    }
  }

  lemma PlainStepKeepsInv(sys: Sys, step: Step)
    requires Inv(sys) && Enabled(sys, step)
    requires step.RollBack? || step.Settle? || step.Register? || step.Remove? || step.Elsewhere? || step.Restart?
    ensures Inv(Next(sys, step))
  {
    var after := Next(sys, step);
    if !step.Restart? {
      assert forall c :: Issued(sys, c) ==> Issued(after, c);
      if sys.incumbent.Some? {
        RowStaysOk(sys, after, sys.incumbent.value.row);
      }
      if sys.row.Some? {
        RowStaysOk(sys, after, sys.row.value);
      }
    }
  }

  // Dropping a coordinator leaves a row accounted for if its reservation, when
  // still recorded there, goes to the abandoned ones.
  lemma DroppedCoordinator(sys: Sys, after: Sys, c: nat, row: Row)
    requires c in sys.repairs && RowOk(sys, row) && Issued(sys, c)
    requires after.repairs == sys.repairs - {c} && after.mark == sys.mark && sys.abandoned <= after.abandoned
    requires Holds(row, sys.repairs[c]) ==> sys.repairs[c] in after.abandoned
    ensures RowOk(after, row)
  {
    assert forall d :: d != c && Issued(sys, d) ==> Issued(after, d);
  }

  lemma FinishKeepsInv(sys: Sys, step: Step)
    requires Inv(sys) && Enabled(sys, step) && step.Finish?
    ensures Inv(Next(sys, step))
  {
    var after, c := Next(sys, step), step.c;
    var r := sys.repairs[c];
    assert forall d :: d in after.repairs ==> Issued(sys, d) && Issued(after, d);
    if sys.incumbent.Some? {
      DroppedCoordinator(sys, after, c, sys.incumbent.value.row);
    }
    if sys.row.Some? {
      var row := sys.row.value;
      if step.outcome.RestartFailure? && Holds(row, r) {
        forall d | d in after.repairs
          ensures Keeps(after.row.value, after.repairs[d])
        {
          assert Keeps(row, sys.repairs[d]);
          assert sys.repairs[d].incarnation != r.incarnation;
        }
      } else {
        DroppedCoordinator(sys, after, c, row);
      }
    }
  }

  lemma StepKeepsInv(sys: Sys, step: Step)
    requires Inv(sys) && Enabled(sys, step)
    ensures Inv(Next(sys, step))
  {
    match step
    case Reserve(_, _) => ReserveKeepsInv(sys, step);
    case StageFor(_, launch) => StagingKeepsInv(sys, step, launch);
    case StagePlain(launch) => StagingKeepsInv(sys, step, launch);
    case Bind(_) => RowStepKeepsInv(sys, step);
    case Adopt(_, _) => RowStepKeepsInv(sys, step);
    case Finalize(_) => RowStepKeepsInv(sys, step);
    case Finish(_, _) => FinishKeepsInv(sys, step);
    case _ => PlainStepKeepsInv(sys, step);
  }

  function Exec(sys: Sys, steps: seq<Step>): Sys
    requires Valid(sys, steps)
    decreases |steps|
  {
    if steps == [] then sys else Exec(Next(sys, steps[0]), steps[1..])
  }

  predicate Valid(sys: Sys, steps: seq<Step>)
    decreases |steps|
  {
    steps == [] || (Enabled(sys, steps[0]) && Valid(Next(sys, steps[0]), steps[1..]))
  }

  // A session with no repair under way, no restart and no reservation left over.
  predicate Quiet(sys: Sys) {
    && sys.repairs == map[] && sys.abandoned == {} && sys.incumbent.None?
    && (sys.row.Some? ==> sys.row.value.reservation.None? && sys.row.value.incarnation <= sys.mark)
  }

  lemma {:induction false} RunKeepsInv(sys: Sys, steps: seq<Step>)
    requires Inv(sys) && Valid(sys, steps)
    ensures Inv(Exec(sys, steps))
    decreases |steps|
  {
    if steps != [] {
      StepKeepsInv(sys, steps[0]);
      RunKeepsInv(Next(sys, steps[0]), steps[1..]);
    }
  }

  // ----- results over all runs -----

  // A coordinator that finishes releases its own reservation exactly when it
  // failed, before staging or after; it never touches one that another
  // coordinator in flight made, and changes nothing else about the row.
  lemma FinishReleasesOnlyItsOwn(start: Sys, steps: seq<Step>, c: nat, outcome: RestartOutcome, d: nat)
    requires Quiet(start) && Valid(start, steps)
    requires c in Exec(start, steps).repairs
    ensures var sys := Exec(start, steps);
            var after := Next(sys, Finish(c, outcome));
            && (Held(sys.row, sys.repairs[c]) ==> (Held(after.row, sys.repairs[c]) <==> !outcome.RestartFailure?))
            && (d in sys.repairs && d != c ==>
                  && !SameRepair(sys.repairs[d], sys.repairs[c])
                  && (Held(after.row, sys.repairs[d]) <==> Held(sys.row, sys.repairs[d])))
            && (sys.row.Some? ==>
                  after.row.Some? && after.row.value.(reservation := sys.row.value.reservation) == sys.row.value)
            && (!Held(sys.row, sys.repairs[c]) ==> after.row == sys.row)
  {
    RunKeepsInv(start, steps);
  }

  // With no coordinator in flight and none that left its reservation behind,
  // the session can be repaired again.
  lemma NothingAbandonedNothingReserved(start: Sys, steps: seq<Step>, backend: string)
    requires Quiet(start) && Valid(start, steps)
    ensures var sys := Exec(start, steps);
            sys.repairs == map[] && sys.abandoned == {} && sys.row.Some? ==>
              RefuseRow(sys.row.value, backend) != Some(RepairInProgress)
  {
    RunKeepsInv(start, steps);
  }

  // ----- the reservation nobody will release -----

  // A reservation made before staging, whose coordinator is gone.
  ghost predicate Stuck(sys: Sys, x: Reservation) {
    && sys.row.Some?
    && sys.row.value.reservation == Some(x)
    && x.phase.PreStage?
    && x.generation != sys.row.value.generation
    && sys.incumbent.None?
    && (forall c :: c in sys.repairs ==> !SameRepair(sys.repairs[c], x))
  }

  ghost predicate Wedged(sys: Sys) {
    exists x :: Stuck(sys, x)
  }

  // A reservation not yet staged, that no coordinator in flight made, with a
  // generation still to come.
  ghost predicate Orphaned(row: Row, repairs: map<nat, Reservation>) {
    && row.reservation.Some?
    && row.reservation.value.phase.PreStage?
    && row.generation < U64_MAX
    && (forall c :: c in repairs ==> !SameRepair(repairs[c], row.reservation.value))
  }

  // Whether a step leaves the session stuck. A finishing repair does when it
  // did not fail, its launch was never staged, and no restart is pending. The
  // end of a restart does when the row it leaves in place, the incumbent or
  // the staged one, carries an orphaned reservation. No other step does; and
  // it undoes it only by replacing the row.
  ghost predicate Wedges(sys: Sys, step: Step)
    requires Enabled(sys, step)
  {
    match step
    case Finish(c, outcome) =>
      || Wedged(sys)
      || (&& !outcome.RestartFailure?
          && sys.row.Some? && sys.row.value.reservation == Some(sys.repairs[c])
          && sys.row.value.generation < U64_MAX
          && sys.incumbent.None?)
    case RollBack => Orphaned(sys.incumbent.value.row, sys.repairs)
    case Settle => sys.row.Some? && Orphaned(sys.row.value, sys.repairs)
    case _ => Wedged(sys) && !Replaces(step)
  }

  lemma WedgedMeans(sys: Sys)
    requires Inv(sys)
    ensures Wedged(sys) <==> sys.row.Some? && sys.incumbent.None? && Orphaned(sys.row.value, sys.repairs)
  {
    if sys.row.Some? && sys.row.value.reservation.Some? {
      var x := sys.row.value.reservation.value;
      assert RowOk(sys, sys.row.value);
      if sys.incumbent.None? && Orphaned(sys.row.value, sys.repairs) {
        assert Stuck(sys, x);
      }
    }
  }

  // From every state a run can reach, with any number of coordinators in
  // flight and whatever earlier ones left behind, a step ends in a stuck
  // session exactly when Wedges says so.
  lemma StepWedgesIff(sys: Sys, step: Step)
    requires Inv(sys) && Enabled(sys, step)
    ensures Wedged(Next(sys, step)) <==> Wedges(sys, step)
  {
    StepKeepsInv(sys, step);
    WedgedMeans(sys);
    WedgedMeans(Next(sys, step));
    match step
    case Finish(c, outcome) => FinishWedgesIff(sys, c, outcome);
    case RollBack =>
    case Settle =>
    case _ =>
      if Wedged(sys) && !Replaces(step) {
        WedgedStays(sys, step);
      } else {
        OthersFree(sys, step);
      }
  }

  lemma FinishWedgesIff(sys: Sys, c: nat, outcome: RestartOutcome)
    requires Inv(sys) && c in sys.repairs
    ensures Wedged(Finished(sys, c, outcome)) <==> Wedges(sys, Finish(c, outcome))
  {
    StepKeepsInv(sys, Finish(c, outcome));
    WedgedMeans(sys);
    WedgedMeans(Finished(sys, c, outcome));
    var after, r := Finished(sys, c, outcome), sys.repairs[c];
    assert Issued(sys, c);
    if sys.row.Some? && sys.row.value.reservation.Some? {
      var row, x := sys.row.value, sys.row.value.reservation.value;
      assert RowOk(sys, row);
      if SameRepair(r, x) {
        assert !Orphaned(row, sys.repairs);
        assert forall d :: d in after.repairs ==> !SameRepair(sys.repairs[d], x);
      } else {
        assert forall d :: d in sys.repairs ==> d == c || d in after.repairs;
        assert Orphaned(row, sys.repairs) <==> Orphaned(row, after.repairs);
      }
    }
  }

  lemma WedgedStays(sys: Sys, step: Step)
    requires Wedged(sys) && Enabled(sys, step) && !Replaces(step)
    ensures Wedged(Next(sys, step))
  {
    var x :| Stuck(sys, x);
    StuckStep(sys, step, x);
  }

  lemma OthersFree(sys: Sys, step: Step)
    requires Inv(sys) && Enabled(sys, step) && !step.Finish? && !step.RollBack? && !step.Settle?
    requires !Wedged(sys) || Replaces(step)
    ensures !Wedged(Next(sys, step))
  {
    WedgedMeans(sys);
    StepKeepsInv(sys, step);
    WedgedMeans(Next(sys, step));
    if step.Reserve? {
      assert Next(sys, step).repairs[step.c] == Next(sys, step).row.value.reservation.value;
    }
  }

  // A restart of the daemon gives the session back: reservations are not saved.
  lemma RestartFrees(sys: Sys, restored: Option<Row>, from: nat)
    requires Enabled(sys, Restart(restored, from))
    ensures Quiet(Next(sys, Restart(restored, from)))
    ensures !Wedged(Next(sys, Restart(restored, from)))
  {
  }

  // So does a new row of the same id, and the row's removal.
  lemma ReplacingFrees(sys: Sys, row: Row)
    requires sys.mark < U64_MAX && row.incarnation == sys.mark + 1 && row.reservation.None?
    ensures Enabled(sys, Register(row)) && !Wedged(Next(sys, Register(row)))
    ensures Enabled(sys, Remove) && !Wedged(Next(sys, Remove))
  {
  }

  lemma StuckBlocks(sys: Sys, x: Reservation, c: nat, backend: string, launch: Launch)
    requires Stuck(sys, x)
    ensures !Enabled(sys, Reserve(c, backend))
    ensures !Enabled(sys, StageFor(c, launch)) && !Enabled(sys, StagePlain(launch))
  {
    if c in sys.repairs {
      assert !SameRepair(sys.repairs[c], x);
    }
  }

  predicate Replaces(step: Step) {
    step.Register? || step.Remove? || step.Restart?
  }

  // From then on no repair and no launch is possible, over any run in which
  // the row is neither replaced nor removed and the daemon is not restarted.
  lemma {:induction false} StuckStays(
      sys: Sys, steps: seq<Step>, x: Reservation, c: nat, backend: string, launch: Launch)
    requires Stuck(sys, x) && Valid(sys, steps)
    requires forall i :: 0 <= i < |steps| ==> !Replaces(steps[i])
    ensures var end := Exec(sys, steps);
            && end.row.Some? && end.row.value.reservation == Some(x)
            && !Enabled(end, Reserve(c, backend))
            && !Enabled(end, StageFor(c, launch)) && !Enabled(end, StagePlain(launch))
    decreases |steps|
  {
    if steps == [] {
      StuckBlocks(sys, x, c, backend, launch);
    } else {
      assert !Replaces(steps[0]);
      StuckStep(sys, steps[0], x);
      StuckStays(Next(sys, steps[0]), steps[1..], x, c, backend, launch);
    }
  }

  lemma StuckStep(sys: Sys, step: Step, x: Reservation)
    requires Stuck(sys, x) && Enabled(sys, step) && !Replaces(step)
    ensures Stuck(Next(sys, step), x)
  {
    match step
    case StageFor(c, launch) =>
      StuckBlocks(sys, x, c, "", launch);
    case Reserve(c, backend) =>
      StuckBlocks(sys, x, c, backend, Launch("", None, false, None, false, false));
    case _ =>
  }

  // Three ways to get there from a quiet session with half a pair. The restart
  // a repair asked for finds another one in progress and gives up; it gives up
  // while that one still has its lease, which then ends; or it fails after
  // staging, its restart lease is retained, and recovery later rolls the row
  // back to the incumbent, which still carries the reservation.
  function GaveUp(): seq<Step> {
    [Reserve(0, "codex"), Finish(0, RestartSuperseded)]
  }

  function Settled(): seq<Step> {
    [StagePlain(Launch("codex", None, true, None, true, false)), Reserve(0, "codex"),
     Finish(0, RestartSuperseded), Settle]
  }

  function Retained(): seq<Step> {
    [Reserve(0, "codex"), StageFor(0, Launch("codex", None, true, None, true, false)),
     Finish(0, RestartFailure), RollBack]
  }

  predicate HalfBound(row: Row) {
    row.isLocal && row.backend == Some("codex") && row.sid.None? && row.reservation.None?
  }

  lemma RepairsCanGetStuck(row: Row, mark: nat)
    requires HalfBound(row) && row.generation + 1 < U64_MAX && row.incarnation <= mark < U64_MAX
    ensures var start := Sys(Some(row), None, mark, map[], {}, map[]);
            && Quiet(start)
            && Valid(start, GaveUp()) && Wedged(Exec(start, GaveUp()))
            && Valid(start, Settled()) && Wedged(Exec(start, Settled()))
            && Valid(start, Retained()) && Wedged(Exec(start, Retained()))
  {
    GaveUpGetsStuck(row, mark);
    SettledGetsStuck(row, mark);
    RetainedGetsStuck(row, mark);
  }

  lemma GaveUpGetsStuck(row: Row, mark: nat)
    requires HalfBound(row) && row.generation < U64_MAX && row.incarnation <= mark < U64_MAX
    ensures var start := Sys(Some(row), None, mark, map[], {}, map[]);
            Valid(start, GaveUp()) && Stuck(Exec(start, GaveUp()), FreshReservation(row))
  {
  }

  lemma SettledGetsStuck(row: Row, mark: nat)
    requires HalfBound(row) && row.generation + 1 < U64_MAX && row.incarnation <= mark < U64_MAX
    ensures var start := Sys(Some(row), None, mark, map[], {}, map[]);
            var staged := LaunchedRow(row, Launch("codex", None, true, None, true, false), mark + 1);
            Valid(start, Settled()) && Stuck(Exec(start, Settled()), FreshReservation(staged))
  {
  }

  lemma RetainedGetsStuck(row: Row, mark: nat)
    requires HalfBound(row) && row.generation < U64_MAX && row.incarnation <= mark < U64_MAX
    ensures var start := Sys(Some(row), None, mark, map[], {}, map[]);
            Valid(start, Retained()) && Stuck(Exec(start, Retained()), FreshReservation(row))
  {
  }

  // ----- what a coordinator reports -----

  // How many more launches the row in place, and the one a restart would fall
  // back to, have behind them than the row had when a coordinator reserved it.
  // A new row counts from its own generation.
  datatype Tally = Tally(row: int, incumbent: int)

  function Counted(step: Step, t: Tally, base: nat): Tally {
    match step
    case StageFor(_, launch) => Tally(t.row + 1, if launch.leased then t.row else t.incumbent)
    case StagePlain(launch) => Tally(t.row + 1, if launch.leased then t.row else t.incumbent)
    case RollBack => Tally(t.incumbent, t.incumbent)
    case Register(row) => Tally(row.generation - base, t.incumbent)
    case _ => t
  }

  function Launches(steps: seq<Step>, t: Tally, base: nat): Tally
    decreases |steps|
  {
    if steps == [] then t else Launches(steps[1..], Counted(steps[0], t, base), base)
  }

  // The count is exact up to the last generation, which is never left.
  predicate Agrees(generation: nat, n: int) {
    if generation < U64_MAX then generation == n else n >= U64_MAX
  }

  predicate Counts(sys: Sys, t: Tally, base: nat) {
    && (sys.row.Some? ==> Agrees(sys.row.value.generation, base + t.row))
    && (sys.incumbent.Some? ==> Agrees(sys.incumbent.value.row.generation, base + t.incumbent))
  }

  function ReservedAt(sys: Sys): Tally
    requires sys.row.Some?
  {
    Tally(0, if sys.incumbent.Some? then sys.incumbent.value.row.generation - sys.row.value.generation else 0)
  }

  lemma StepCounts(sys: Sys, step: Step, t: Tally, base: nat)
    requires Enabled(sys, step) && Counts(sys, t, base) && !step.Restart?
    ensures Counts(Next(sys, step), Counted(step, t, base), base)
  {
  }

  // The coordinator is still in flight.
  predicate Unfinished(steps: seq<Step>, c: nat) {
    forall i :: 0 <= i < |steps| ==> !steps[i].Restart? && !(steps[i].Finish? && steps[i].c == c)
  }

  lemma {:induction false} RunCounts(sys: Sys, steps: seq<Step>, c: nat, t: Tally, base: nat)
    requires Inv(sys) && Valid(sys, steps) && Unfinished(steps, c) && c in sys.repairs && Counts(sys, t, base)
    ensures var end := Exec(sys, steps);
            && Inv(end) && c in end.repairs && end.repairs[c] == sys.repairs[c]
            && Counts(end, Launches(steps, t, base), base)
    decreases |steps|
  {
    if steps != [] {
      assert !steps[0].Restart? && !(steps[0].Finish? && steps[0].c == c);
      StepKeepsInv(sys, steps[0]);
      StepCounts(sys, steps[0], t, base);
      assert forall i :: 0 <= i < |steps[1..]| ==> steps[1..][i] == steps[i + 1];
      RunCounts(Next(sys, steps[0]), steps[1..], c, Counted(steps[0], t, base), base);
    }
  }

  // Over every run from where it reserved the row, a coordinator whose restart
  // did not fail reports, below the last generation, that the repair is bound if
  // and only if the row in place has exactly one more launch behind it and a
  // complete pair with no reservation; in every other case that it was
  // superseded. One whose restart failed reports the failure if and only if the
  // row still held its reservation, staged or not.
  lemma ReportFollowsLaunches(sys: Sys, c: nat, backend: string, steps: seq<Step>, outcome: RestartOutcome)
    requires Inv(sys) && Enabled(sys, Reserve(c, backend))
    requires Valid(Next(sys, Reserve(c, backend)), steps) && Unfinished(steps, c)
    ensures var end := Exec(Next(sys, Reserve(c, backend)), steps);
            && Enabled(end, Finish(c, outcome))
            && var report := Next(end, Finish(c, outcome)).reports[c];
               (end.row.None? ==> report == Superseded)
    ensures var end, base := Exec(Next(sys, Reserve(c, backend)), steps), sys.row.value.generation;
            end.row.Some? && end.row.value.generation < U64_MAX ==>
              var row, report := end.row.value, Next(end, Finish(c, outcome)).reports[c];
              var bound := row.backend.Some? && row.sid.Some? && row.reservation.None?;
              if outcome.RestartFailure? then
                report == if Held(end.row, FreshReservation(sys.row.value)) then RestartFailed
                          else if bound then Bound else Superseded
              else
                report == if Launches(steps, ReservedAt(sys), base).row == 1 && bound then Bound else Superseded
  {
    var reserved, base := Next(sys, Reserve(c, backend)), sys.row.value.generation;
    StepKeepsInv(sys, Reserve(c, backend));
    RunCounts(reserved, steps, c, ReservedAt(sys), base);
    var end := Exec(reserved, steps);
    if end.row.Some? && end.row.value.generation < U64_MAX {
      assert Issued(end, c) && RowOk(end, end.row.value);
    }
  }

  function Stagings(steps: seq<Step>): nat
    decreases |steps|
  {
    if steps == [] then 0
    else (if steps[0].StageFor? || steps[0].StagePlain? then 1 else 0) + Stagings(steps[1..])
  }

  // Unless the row is rolled back or registered anew, the launches behind it are
  // those staged since.
  lemma {:induction false} StagingsAreLaunches(steps: seq<Step>, t: Tally, base: nat)
    requires forall i :: 0 <= i < |steps| ==> !steps[i].RollBack? && !steps[i].Register?
    ensures Launches(steps, t, base).row == t.row + Stagings(steps)
    decreases |steps|
  {
    if steps != [] {
      assert !steps[0].RollBack? && !steps[0].Register?;
      assert forall i :: 0 <= i < |steps[1..]| ==> steps[1..][i] == steps[i + 1];
      StagingsAreLaunches(steps[1..], Counted(steps[0], t, base), base);
    }
  }

  // A rollback takes launches back: here two are staged since the reservation,
  // by others, and the repair is reported bound all the same.
  function AfterRollback(): seq<Step> {
    [RollBack, StagePlain(AFRESH), StagePlain(AFRESH), Bind(Snapshot.Pair("codex", "s"))]
  }

  const AFRESH := Launch("codex", None, true, None, false, false)

  lemma RolledBackLaunchesDoNotCount(row: Row, mark: nat, c: nat)
    requires HalfBound(row) && row.generation + 2 < U64_MAX && row.incarnation <= mark && mark + 3 < U64_MAX
    ensures var start := Sys(Some(row), None, mark, map[], {}, map[]);
            var staged := StagePlain(AFRESH.(leased := true));
            && Quiet(start) && Enabled(start, staged)
            && Enabled(Next(start, staged), Reserve(c, "codex"))
            && var reserved := Next(Next(start, staged), Reserve(c, "codex"));
               && Valid(reserved, AfterRollback()) && Stagings(AfterRollback()) == 2
               && Next(Exec(reserved, AfterRollback()), Finish(c, Restarted)).reports[c] == Bound
  {
    var start := Sys(Some(row), None, mark, map[], {}, map[]);
    var staged := StagePlain(AFRESH.(leased := true));
    var reserved := Next(Next(start, staged), Reserve(c, "codex"));
    var back := Next(reserved, RollBack);
    assert back.row == Some(row) && back.mark == mark + 1 && c in back.repairs;
    var rest := [StagePlain(AFRESH), StagePlain(AFRESH), Bind(Snapshot.Pair("codex", "s"))];
    TwoMore(back, c, row);
    FirstThen(reserved, RollBack, rest);
    assert AfterRollback() == [RollBack] + rest;
  }

  lemma TwoMore(sys: Sys, c: nat, row: Row)
    requires sys.row == Some(row) && HalfBound(row) && sys.mark + 2 < U64_MAX && row.generation + 2 < U64_MAX
    requires c in sys.repairs && sys.repairs[c].generation == row.generation + 2
    ensures var steps := [StagePlain(AFRESH), StagePlain(AFRESH), Bind(Snapshot.Pair("codex", "s"))];
            && Valid(sys, steps) && Stagings(steps) == 2
            && c in Exec(sys, steps).repairs
            && Next(Exec(sys, steps), Finish(c, Restarted)).reports[c] == Bound
  {
    var stage, bind := StagePlain(AFRESH), Bind(Snapshot.Pair("codex", "s"));
    var once := Next(sys, stage);
    var twice := Next(once, stage);
    FirstThen(twice, bind, []);
    FirstThen(once, stage, [bind]);
    FirstThen(sys, stage, [stage, bind]);
    assert [stage] + [stage, bind] == [stage, stage, bind];
    var bound := Next(twice, bind);
    assert bound.row.value.generation == row.generation + 2 && Complete(bound.row.value);
  }

  lemma FirstThen(sys: Sys, step: Step, rest: seq<Step>)
    requires Enabled(sys, step) && Valid(Next(sys, step), rest)
    ensures Valid(sys, [step] + rest) && Exec(sys, [step] + rest) == Exec(Next(sys, step), rest)
    ensures Stagings([step] + rest) == (if step.StageFor? || step.StagePlain? then 1 else 0) + Stagings(rest)
  {
    assert ([step] + rest)[1..] == rest;
  }

  // The report that a launch is pending its session start never comes: a
  // staged reservation no longer equals the copy it is compared with, and one
  // not yet staged is for the next generation.
  lemma PendingIsNeverReported(start: Sys, steps: seq<Step>, c: nat, outcome: RestartOutcome)
    requires Quiet(start) && Valid(start, steps)
    requires var sys := Exec(start, steps); c in sys.repairs && sys.row.Some? && sys.row.value.generation < U64_MAX
    ensures var sys := Exec(start, steps);
            var report := Classified(sys.row.value, sys.repairs[c], outcome);
            report in {RestartFailed, Bound, Superseded}
  {
    RunKeepsInv(start, steps);
    var sys := Exec(start, steps);
    assert Issued(sys, c) && Current(sys.row.value);
  }
}
