// Incarnation numbers over whole runs of the daemon: issued, recorded in rows,
// saved, lost in a crash and loaded again.

module Incarnations {
  import opened Options
  import opened SessionRow
  import opened BackendBinding
  import opened Lifecycle
  import opened Durable
  import opened DaemonRuns
  import L = LoadSave

  class Allocator {
    var highWater: nat

    constructor ()
      ensures highWater == 0
    {
      highWater := 0;
    }

    // Restoring never lowers the mark.
    method Restore(saved: nat)
      modifies this
      ensures highWater == L.Max(old(highWater), saved)
    {
      highWater := L.Max(highWater, saved);
    }

    // An exhausted allocator issues nothing and keeps its mark.
    method Allocate() returns (issued: Option<nat>)
      requires highWater <= U64_MAX
      modifies this
      ensures old(highWater) == U64_MAX ==> issued == None && highWater == old(highWater)
      ensures old(highWater) < U64_MAX ==> issued == Some(highWater) && highWater == old(highWater) + 1
    {
      if highWater == U64_MAX {
        return None;
      }
      highWater := highWater + 1;
      issued := Some(highWater);
    }
  }

  // ----- what a step can record -----

  lemma IssueNumbers(reg: Registry, step: Step, n: nat)
    requires Enabled(reg, step) && Issues(step) && n in Numbers(Next(reg, step))
    ensures n in Numbers(reg) || n == reg.mark + 1
  {
  }

  lemma LeasingNumbers(reg: Registry, step: Step, n: nat)
    requires Enabled(reg, step) && LeaseStep(step) && n in Numbers(Next(reg, step))
    ensures n in Numbers(reg)
  {
    var after := Next(reg, step);
    if n in AllLeaseNumbers(after) {
      var l :| l in after.leases && n in LeaseNumbers(after.leases[l]);
      if l == step.id && (step.ClaimRestart? || step.ClaimStop?) {
        assert n == reg.rows[l].incarnation && IsLocal(reg, l);
      } else {
        assert l in reg.leases && n in LeaseNumbers(reg.leases[l]);
      }
    }
  }

  lemma EditNumbers(reg: Registry, step: Step, n: nat)
    requires Enabled(reg, step) && Edits(step) && n in Numbers(Next(reg, step))
    ensures n in Numbers(reg)
  {
    forall id {
      EditKeepsNumbers(reg, step, id);
    }
  }

  // The number of a row that was not there before the step.
  lemma MovedRowNumber(reg: Registry, step: Step, id: string)
    requires Enabled(reg, step) && !Issues(step) && !LeaseStep(step) && !Edits(step) && IsLocal(Next(reg, step), id)
    ensures var n := Next(reg, step).rows[id].incarnation;
            || (IsLocal(reg, id) && n == reg.rows[id].incarnation)
            || (step.Rename? && n == reg.rows[step.from].incarnation)
            || (id in reg.leases && n in LeaseNumbers(reg.leases[id]))
            || (Captures(reg, step) && n == step.wire.value.incarnation)
  {
  }

  lemma MoveNumbers(reg: Registry, step: Step, n: nat)
    requires Enabled(reg, step) && !Issues(step) && !LeaseStep(step) && !Edits(step) && n in Numbers(Next(reg, step))
    ensures n in Numbers(reg) || (Captures(reg, step) && n == step.wire.value.incarnation)
  {
    var after := Next(reg, step);
    RowStepKeepsLeases(reg, step);
    if n in RowNumbers(after) {
      var id :| id in after.rows && after.rows[id].isLocal && after.rows[id].incarnation == n;
      MovedRowNumber(reg, step, id);
    } else if n in DormantNumbers(after) {
      var d :| d in after.dormant && after.dormant[d].incarnation == n;
      OnlyRetiringAddsDormant(reg, step, d);
    } else {
      var l :| l in after.leases && n in LeaseNumbers(after.leases[l]);
      assert l in reg.leases && after.leases[l] == reg.leases[l];
    }
  }

  // A snapshot after a step records nothing but what one before it would, the
  // number the step issued, and what an announcement wrote into a local row.
  lemma StepNumbers(reg: Registry, step: Step, n: nat)
    requires Enabled(reg, step) && n in Numbers(Next(reg, step))
    ensures || n in Numbers(reg)
            || (Issues(step) && n == reg.mark + 1)
            || (Captures(reg, step) && n == step.wire.value.incarnation)
  {
    if Issues(step) {
      IssueNumbers(reg, step, n);
    } else if LeaseStep(step) {
      LeasingNumbers(reg, step, n);
    } else if Edits(step) {
      EditNumbers(reg, step, n);
    } else {
      MoveNumbers(reg, step, n);
    }
  }

  // ----- what was ever saved -----

  ghost predicate EverSaved(sys: Sys, n: nat) {
    exists i :: 0 <= i < |sys.saved| && n in Numbers(sys.saved[i])
  }

  ghost predicate Fits64(reg: Registry) {
    reg.mark <= U64_MAX && forall n :: n in Numbers(reg) ==> n <= U64_MAX
  }

  // Numbers have 64 bits, the disk holds the last snapshot, and a snapshot's
  // mark is not below what it records.
  ghost predicate HistoryOk(sys: Sys) {
    && Fits64(sys.reg) && Fits64(sys.disk)
    && (forall n: nat :: EverSaved(sys, n) ==> n <= U64_MAX)
    && (forall n :: n in Numbers(sys.disk) ==> EverSaved(sys, n) && n <= sys.disk.mark)
  }

  ghost predicate SavedBelow(sys: Sys, mark: nat) {
    forall n: nat :: EverSaved(sys, n) ==> n <= mark
  }

  // Everything in memory and everything ever saved lies at or below the mark
  // in memory, and below the mark on disk if a daemon can start from it.
  ghost predicate Safe(sys: Sys) {
    && (forall n :: n in Numbers(sys.reg) ==> n <= sys.reg.mark)
    && SavedBelow(sys, sys.reg.mark)
    && (Loadable(sys.disk) ==> SavedBelow(sys, sys.disk.mark))
  }

  // An announcement on a local row writes a number no greater than the mark.
  predicate BoundedAnnouncement(sys: Sys, step: SysStep) {
    step.Live? && Captures(sys.reg, step.step) ==> step.step.wire.value.incarnation <= sys.reg.mark
  }

  lemma SavingAdds(sys: Sys, n: nat)
    ensures EverSaved(SysNext(sys, Save), n) <==> EverSaved(sys, n) || n in Numbers(sys.reg)
  {
    var after, kept := SysNext(sys, Save), Written(sys.reg);
    WrittenNumbers(sys.reg);
    assert after.saved[|sys.saved|] == kept;
    assert forall i :: 0 <= i < |sys.saved| ==> after.saved[i] == sys.saved[i];
  }

  lemma ReloadedNumbers(disk: Registry, n: nat)
    requires n in Numbers(Reloaded(disk))
    ensures n in Numbers(disk)
  {
    var back := Reloaded(disk);
    if n in RowNumbers(back) {
      var id :| id in back.rows && back.rows[id].incarnation == n;
      if id in disk.leases && n in LeaseNumbers(disk.leases[id]) {
      } else {
        assert disk.rows[id].incarnation == n;
      }
    }
  }

  lemma SavedStays(sys: Sys, step: SysStep, n: nat)
    requires SysEnabled(sys, step)
    ensures EverSaved(SysNext(sys, step), n) <==> EverSaved(sys, n) || (step.Save? && n in Numbers(sys.reg))
  {
    if step.Save? {
      SavingAdds(sys, n);
    }
  }

  lemma LiveKeeps64(sys: Sys, s: Step)
    requires Fits64(sys.reg) && Enabled(sys.reg, s)
    ensures Fits64(Next(sys.reg, s))
  {
    StepKeepsMark(sys.reg, s);
    forall n | n in Numbers(Next(sys.reg, s))
      ensures n <= U64_MAX
    {
      StepNumbers(sys.reg, s, n);
    }
  }

  lemma StepKeepsHistory(sys: Sys, step: SysStep)
    requires HistoryOk(sys) && SysEnabled(sys, step)
    ensures HistoryOk(SysNext(sys, step))
  {
    forall n: nat
      ensures EverSaved(SysNext(sys, step), n) <==> EverSaved(sys, n) || (step.Save? && n in Numbers(sys.reg))
    {
      SavedStays(sys, step, n);
    }
    match step
    case Live(s) => LiveKeeps64(sys, s);
    case Save => WrittenNumbers(sys.reg);
    case Reload =>
      forall n | n in Numbers(Reloaded(sys.disk))
        ensures n <= U64_MAX
      {
        ReloadedNumbers(sys.disk, n);
      }
  }

  // Every step keeps marks above what was saved if and only if its announcement
  // on a local row, if it is one, is bounded by the mark.
  lemma StepIsSafeIff(sys: Sys, step: SysStep)
    requires HistoryOk(sys) && Safe(sys) && SysEnabled(sys, step)
    ensures Safe(SysNext(sys, step)) <==> BoundedAnnouncement(sys, step)
  {
    forall n: nat
      ensures EverSaved(SysNext(sys, step), n) <==> EverSaved(sys, n) || (step.Save? && n in Numbers(sys.reg))
    {
      SavedStays(sys, step, n);
    }
    match step
    case Live(s) => LiveStepIsBelowIff(sys, s);
    case Save =>
    case Reload =>
      forall n | n in Numbers(Reloaded(sys.disk))
        ensures n in Numbers(sys.disk)
      {
        ReloadedNumbers(sys.disk, n);
      }
  }

  lemma LiveStepIsBelowIff(sys: Sys, s: Step)
    requires Safe(sys) && Enabled(sys.reg, s)
    ensures sys.reg.mark <= Next(sys.reg, s).mark
    ensures var after := Next(sys.reg, s);
            (forall n :: n in Numbers(after) ==> n <= after.mark) <==> BoundedAnnouncement(sys, Live(s))
  {
    var after := Next(sys.reg, s);
    StepKeepsMark(sys.reg, s);
    if BoundedAnnouncement(sys, Live(s)) {
      forall n | n in Numbers(after)
        ensures n <= after.mark
      {
        StepNumbers(sys.reg, s, n);
      }
    } else {
      var n := s.wire.value.incarnation;
      assert IsLocal(after, s.id) && after.rows[s.id].incarnation == n;
      assert n in Numbers(after) && after.mark == sys.reg.mark < n;
    }
  }

  // A daemon starts from what it loads, whose mark is not below what it records.
  lemma StartIsSafe(disk: Registry)
    requires Fits64(disk) && forall n :: n in Numbers(disk) ==> n <= disk.mark
    ensures var start := Sys(Reloaded(disk), disk, [disk]); HistoryOk(start) && Safe(start)
  {
    var start := Sys(Reloaded(disk), disk, [disk]);
    forall n | n in Numbers(start.reg)
      ensures n in Numbers(disk)
    {
      ReloadedNumbers(disk, n);
    }
    assert start.saved[0] == disk;
    assert forall n :: EverSaved(start, n) <==> n in Numbers(disk);
  }

  // ----- over runs -----

  // Runs whose announcements on local rows are bounded by the mark.
  ghost predicate BoundedRun(sys: Sys, steps: seq<SysStep>)
    decreases |steps|
  {
    steps == [] || (
      && SysEnabled(sys, steps[0])
      && BoundedAnnouncement(sys, steps[0])
      && BoundedRun(SysNext(sys, steps[0]), steps[1..]))
  }

  // After the run the step hands out a number that a snapshot recorded.
  ghost predicate Reissues(sys: Sys, steps: seq<SysStep>, step: Step) {
    && BoundedRun(sys, steps)
    && var end := Run(sys, steps);
       Enabled(end.reg, step) && Issues(step) && EverSaved(end, end.reg.mark + 1)
  }

  lemma {:induction false} SafeRunsStaySafe(sys: Sys, steps: seq<SysStep>)
    requires HistoryOk(sys) && Safe(sys) && BoundedRun(sys, steps)
    ensures HistoryOk(Run(sys, steps)) && Safe(Run(sys, steps))
    decreases |steps|
  {
    if steps != [] {
      StepKeepsHistory(sys, steps[0]);
      StepIsSafeIff(sys, steps[0]);
      SafeRunsStaySafe(SysNext(sys, steps[0]), steps[1..]);
    }
  }

  lemma {:induction false} UnannouncedIsBounded(sys: Sys, steps: seq<SysStep>)
    requires Runs(sys, steps) && Unannounced(steps)
    ensures BoundedRun(sys, steps)
    decreases |steps|
  {
    if steps != [] {
      UnannouncedIsBounded(SysNext(sys, steps[0]), steps[1..]);
    }
  }

  lemma ReissuedByAndBy(sys: Sys, n: nat) returns (steps: seq<SysStep>, step: Step)
    requires EverSaved(sys, n) && sys.reg.mark < n <= U64_MAX
    ensures Reissues(sys, steps, step)
  {
    var name;
    steps, name := ReachesNext(sys, n);
    UnannouncedIsBounded(sys, steps);
    step := ReserveStart(name);
    assert EverSaved(Run(sys, steps), n);
  }

  lemma AfterOne(sys: Sys, first: SysStep, rest: seq<SysStep>, step: Step)
    requires SysEnabled(sys, first) && BoundedAnnouncement(sys, first) && Reissues(SysNext(sys, first), rest, step)
    ensures Reissues(sys, [first] + rest, step)
  {
    assert ([first] + rest)[1..] == rest;
  }

  lemma UnsafeReissues(sys: Sys) returns (steps: seq<SysStep>, step: Step)
    requires HistoryOk(sys) && !Safe(sys)
    ensures Reissues(sys, steps, step)
  {
    if n: nat :| EverSaved(sys, n) && n > sys.reg.mark {
      steps, step := ReissuedByAndBy(sys, n);
    } else if n :| n in Numbers(sys.reg) && n > sys.reg.mark {
      SavingAdds(sys, n);
      var rest;
      rest, step := ReissuedByAndBy(SysNext(sys, Save), n);
      AfterOne(sys, Save, rest, step);
      steps := [Save] + rest;
    } else {
      var n: nat :| EverSaved(sys, n) && n > sys.disk.mark;
      assert EverSaved(SysNext(sys, Reload), n);
      var rest;
      rest, step := ReissuedByAndBy(SysNext(sys, Reload), n);
      AfterOne(sys, Reload, rest, step);
      steps := [Reload] + rest;
    }
  }

  ghost predicate NeverReissued(sys: Sys) {
    forall steps, step :: BoundedRun(sys, steps) ==> !Reissues(sys, steps, step)
  }

  // Over every run of lifecycle work, saves, crashes and reloads whose
  // announcements on local rows are bounded by the mark, no incarnation that
  // some snapshot recorded is handed out again, if and only if the marks are
  // not below what is recorded and was saved when the run starts.
  lemma NeverReissuedIff(sys: Sys)
    requires HistoryOk(sys)
    ensures NeverReissued(sys) <==> Safe(sys)
  {
    if Safe(sys) {
      forall steps, step | BoundedRun(sys, steps)
        ensures !Reissues(sys, steps, step)
      {
        SafeRunsStaySafe(sys, steps);
      }
    } else {
      var steps, step := UnsafeReissues(sys);
      assert BoundedRun(sys, steps) && Reissues(sys, steps, step);
    }
  }

  // One unbounded announcement is enough: from any safe state some run goes on
  // to hand the announced number out although a snapshot recorded it.
  lemma UnboundedAnnouncementIsReissued(sys: Sys, s: Step) returns (steps: seq<SysStep>, step: Step)
    requires HistoryOk(sys) && Safe(sys) && Enabled(sys.reg, s) && !BoundedAnnouncement(sys, Live(s))
    ensures Reissues(SysNext(sys, Live(s)), steps, step)
  {
    StepKeepsHistory(sys, Live(s));
    StepIsSafeIff(sys, Live(s));
    steps, step := UnsafeReissues(SysNext(sys, Live(s)));
  }

  // Such a run from an empty daemon: the start of "n/x" takes 1, the daemon
  // named n announces its x with 2, a snapshot is saved, and the start of y
  // takes 2.
  const FIRST := UNKNOWN.(isLocal := true, incarnation := 1)
  const SECOND := UNKNOWN.(isLocal := true, incarnation := 2)

  function Empty(): Registry {
    Registry(map[], map[], map[], 0)
  }

  function Reserved(): Registry {
    Empty().(leases := map["n/x" := Lease(Starting, 1, None, None, None, None, None, None)], mark := 1)
  }

  function Started(): Registry {
    Reserved().(rows := map["n/x" := FIRST])
  }

  function Rewritten(): Registry {
    Reserved().(rows := map["n/x" := SECOND])
  }

  lemma AnnouncedNumberIsReissued()
    ensures Enabled(Empty(), ReserveStart("n/x")) && Next(Empty(), ReserveStart("n/x")) == Reserved()
    ensures Enabled(Reserved(), CommitStart("n/x", FIRST)) && Next(Reserved(), CommitStart("n/x", FIRST)) == Started()
    ensures var announce := Announce("n/x", Some(SECOND));
            Enabled(Started(), announce) && Next(Started(), announce) == Rewritten()
    ensures var sys := SysNext(Sys(Rewritten(), Empty(), [Empty()]), Save);
            Reissues(sys, [], ReserveStart("y")) && sys.reg.mark + 1 == 2
  {
    StartsUnderASlash();
    IsRewritten();
    IsReissued();
  }

  lemma StartsUnderASlash()
    ensures Enabled(Empty(), ReserveStart("n/x")) && Next(Empty(), ReserveStart("n/x")) == Reserved()
    ensures Enabled(Reserved(), CommitStart("n/x", FIRST)) && Next(Reserved(), CommitStart("n/x", FIRST)) == Started()
  {
  }

  lemma IsRewritten()
    ensures var announce := Announce("n/x", Some(SECOND));
            Enabled(Started(), announce) && Next(Started(), announce) == Rewritten()
  {
    assert "n/x"[1] == '/';
    assert Announced(Started(), "n/x", Some(SECOND)).rows == Rewritten().rows;
  }

  lemma IsReissued()
    ensures var sys := SysNext(Sys(Rewritten(), Empty(), [Empty()]), Save);
            Reissues(sys, [], ReserveStart("y")) && sys.reg.mark + 1 == 2
  {
    var before := Sys(Rewritten(), Empty(), [Empty()]);
    assert IsLocal(Rewritten(), "n/x") && Rewritten().rows["n/x"].incarnation == 2;
    SavingAdds(before, 2);
    assert EverSaved(SysNext(before, Save), 2);
    assert "y" !in Rewritten().rows && "y" !in Rewritten().leases;
  }
}
