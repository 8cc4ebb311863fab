// The session-end hook: it looks a row up by incarnation under a read lock and
// retires it later under the write lock. Before and in between, the daemon runs
// on, saves, crashes and loads.

module SessionEnd {
  import opened Options
  import opened SessionRow
  import opened BackendBinding
  import opened Lifecycle
  import opened DaemonRuns
  import D = Durable
  import Snapshot

  datatype Hook = Hook(pane: Option<string>, sid: Option<string>, incarnation: nat)

  // The row a lookup found, as it was then.
  datatype Found = Found(id: string, incarnation: nat, pane: Option<string>)

  predicate Names(hook: Hook, row: Row) {
    && row.incarnation == hook.incarnation
    && ((hook.pane.Some? && row.pane == hook.pane) || (hook.sid.Some? && row.sid == hook.sid))
  }

  predicate Finds(reg: Registry, hook: Hook, found: Found) {
    && found.id in reg.rows
    && Names(hook, reg.rows[found.id])
    && found == Found(found.id, hook.incarnation, reg.rows[found.id].pane)
  }

  // Whether the row still is the one the hook found, with nothing else under way on it.
  predicate StillEnding(reg: Registry, found: Found) {
    && IsLocal(reg, found.id)
    && !Leased(reg, found.id)
    && reg.rows[found.id].incarnation == found.incarnation
    && reg.rows[found.id].pane == found.pane
  }

  function Ended(reg: Registry, found: Found): Registry {
    if StillEnding(reg, found) then Retired(reg, found.id) else reg
  }

  // ----- in place -----

  datatype HookResult = NoIncarnation | NoSession | Replaced | Done(id: string)

  // Visits the rows in whatever order the map has them.
  method FindEnding(state: RegistryState, hook: Hook) returns (found: Option<Found>)
    ensures found.None? <==> forall id :: id in state.rows ==> !Names(hook, state.rows[id])
    ensures found.Some? ==> Finds(state.State(), hook, found.value)
    ensures found.Some? ==>
              && found.value.id in state.rows
              && var row := state.rows[found.value.id];
                 && found.value.incarnation == row.incarnation == hook.incarnation && found.value.pane == row.pane
                 && ((hook.pane.Some? && row.pane == hook.pane) || (hook.sid.Some? && row.sid == hook.sid))
    ensures found.None? ==>
              forall id :: id in state.rows && state.rows[id].incarnation == hook.incarnation ==>
                && (hook.pane.Some? ==> state.rows[id].pane != hook.pane)
                && (hook.sid.Some? ==> state.rows[id].sid != hook.sid)
  {
    found := None;
    var todo := state.rows.Keys;
    while todo != {}
      invariant todo <= state.rows.Keys
      invariant forall id :: id in state.rows && id !in todo ==> !Names(hook, state.rows[id])
    {
      var id :| id in todo;
      if Names(hook, state.rows[id]) {
        return Some(Found(id, state.rows[id].incarnation, state.rows[id].pane));
      }
      todo := todo - {id};
    }
  }

  // A row with a usable pair and usable directories can be recovered later.
  predicate Returnable(row: Row) {
    && D.Usable(row)
    && row.projectDir.Some? && Snapshot.UsableProject(row.projectDir.value)
    && row.canonicalProject.Some? && Snapshot.UsableProject(row.canonicalProject.value)
  }

  // What ending the session files: a returnable row under its id, as it was but
  // for a pending credential or reservation; nothing for another row.
  predicate Files(row: Row, id: string, before: map<string, Row>, after: map<string, Row>) {
    if Returnable(row) then
      && after.Keys == before.Keys + {id}
      && after[id].incarnation == row.incarnation && after[id].isLocal == row.isLocal && after[id].pane == row.pane
      && after[id].backend == row.backend && after[id].sid == row.sid
      && after[id].projectDir == row.projectDir && after[id].canonicalProject == row.canonicalProject
      && after[id].credential.None? && after[id].reservation.None?
      && (forall d :: d in before && d != id ==> after[d] == before[d])
    else after == before
  }

  method DormantOwned(state: RegistryState, found: Found) returns (ended: bool)
    modifies state
    ensures ended <==> StillEnding(old(state.State()), found)
    ensures state.State() == Ended(old(state.State()), found)
    ensures ended ==>
              && found.id in old(state.rows) && state.rows == old(state.rows) - {found.id}
              && old(state.rows)[found.id].incarnation == found.incarnation
              && old(state.rows)[found.id].pane == found.pane
              && old(state.rows)[found.id].isLocal && found.id !in state.leases
              && Files(old(state.rows)[found.id], found.id, old(state.dormant), state.dormant)
    ensures !ended ==> state.rows == old(state.rows) && state.dormant == old(state.dormant)
    ensures !ended && found.id in old(state.rows) ==>
              || found.id in state.leases || !old(state.rows)[found.id].isLocal
              || old(state.rows)[found.id].incarnation != found.incarnation
              || old(state.rows)[found.id].pane != found.pane
  {
    if found.id !in state.rows {
      return false;
    }
    var row := state.rows[found.id];
    if found.id in state.leases || !row.isLocal || row.incarnation != found.incarnation || row.pane != found.pane {
      return false;
    }
    state.rows := state.rows - {found.id};
    if Recoverable(row) {
      state.dormant := state.dormant[found.id := row.(credential := None, reservation := None)];
    }
    return true;
  }

  // A hook that nothing interleaves with ends a row it names, if that row is
  // local and has no lifecycle operation in progress, and touches no other.
  method SessionEnd(state: RegistryState, hook: Hook, versioned: bool) returns (result: HookResult)
    modifies state
    ensures !versioned ==> result == NoIncarnation
    ensures versioned && (forall id :: id in old(state.rows) ==> !Names(hook, old(state.rows)[id])) ==>
              result == NoSession
    ensures result.Done? ==>
              && result.id in old(state.rows)
              && Names(hook, old(state.rows)[result.id])
              && old(state.rows)[result.id].isLocal && result.id !in state.leases
              && state.rows == old(state.rows) - {result.id}
              && Files(old(state.rows)[result.id], result.id, old(state.dormant), state.dormant)
    ensures !result.Done? ==> state.rows == old(state.rows) && state.dormant == old(state.dormant)
    ensures result.Replaced? ==>
              exists id :: id in state.rows && Names(hook, state.rows[id])
                           && (!state.rows[id].isLocal || id in state.leases)
  {
    if !versioned {
      return NoIncarnation;
    }
    var found := FindEnding(state, hook);
    if found.None? {
      return NoSession;
    }
    var ended := DormantOwned(state, found.value);
    return if ended then Done(found.value.id) else Replaced;
  }

  // ----- the lookup -----

  // Over every run of lifecycle work, orderly announcements, saves, crashes and
  // reloads, a hook with an issued incarnation names at most one local row.
  lemma HookNamesOneLocalRow(start: Sys, steps: seq<SysStep>, hook: Hook, a: string, b: string)
    requires SysInv(start) && Runs(start, steps) && hook.incarnation > 0
    requires var reg := Run(start, steps).reg; IsLocal(reg, a) && IsLocal(reg, b)
    requires var reg := Run(start, steps).reg; Names(hook, reg.rows[a]) && Names(hook, reg.rows[b])
    ensures a == b
  {
    SysRunKeepsInv(start, steps);
    OneLocalRow(Run(start, steps).reg, hook, a, b);
  }

  lemma OneLocalRow(reg: Registry, hook: Hook, a: string, b: string)
    requires Inv(reg) && hook.incarnation > 0 && IsLocal(reg, a) && IsLocal(reg, b)
    requires Names(hook, reg.rows[a]) && Names(hook, reg.rows[b])
    ensures a == b
  {
    assert hook.incarnation in Recorded(reg, a) && hook.incarnation in Recorded(reg, b);
  }

  // Rows of other daemons that carry the incarnation and the backend session of the hook.
  function Impostors(reg: Registry, hook: Hook): set<string> {
    set id | id in reg.rows && !reg.rows[id].isLocal && Names(hook, reg.rows[id])
  }

  function Locals(reg: Registry, hook: Hook): set<string> {
    set id | id in reg.rows && reg.rows[id].isLocal && Names(hook, reg.rows[id])
  }

  ghost predicate OneNamed(reg: Registry, hook: Hook) {
    forall a, b :: a in reg.rows && b in reg.rows && Names(hook, reg.rows[a]) && Names(hook, reg.rows[b]) ==> a == b
  }

  // The lookup does not look at the origin. In every reachable state it has
  // one row to find at most if and only if no foreign row answers to the hook,
  // or one does and no local row.
  lemma LookupIsUniqueIff(start: Sys, steps: seq<SysStep>, hook: Hook)
    requires SysInv(start) && Runs(start, steps) && hook.incarnation > 0
    ensures var reg := Run(start, steps).reg;
            OneNamed(reg, hook) <==>
            || Impostors(reg, hook) == {}
            || (|Impostors(reg, hook)| == 1 && Locals(reg, hook) == {})
  {
    SysRunKeepsInv(start, steps);
    var reg := Run(start, steps).reg;
    forall a, b | IsLocal(reg, a) && IsLocal(reg, b) && Names(hook, reg.rows[a]) && Names(hook, reg.rows[b])
      ensures a == b
    {
      OneLocalRow(reg, hook, a, b);
    }
    if OneNamed(reg, hook) && Impostors(reg, hook) != {} {
      var f :| f in Impostors(reg, hook);
      assert forall a :: a in Impostors(reg, hook) ==> a == f;
      assert Impostors(reg, hook) == {f};
    }
    if |Impostors(reg, hook)| == 1 {
      var f :| f in Impostors(reg, hook);
      assert |Impostors(reg, hook) - {f}| == 0;
      assert Impostors(reg, hook) == {f};
    }
    assert forall a :: a in reg.rows && Names(hook, reg.rows[a]) ==> a in Impostors(reg, hook) + Locals(reg, hook);
  }

  // The end of a named local session that is not leased is sure, whatever row
  // the lookup visits first, if and only if no foreign row answers to the hook.
  lemma EndingIsSureIff(start: Sys, steps: seq<SysStep>, hook: Hook, id: string)
    requires SysInv(start) && Runs(start, steps) && hook.incarnation > 0
    requires var reg := Run(start, steps).reg; IsLocal(reg, id) && Names(hook, reg.rows[id]) && !Leased(reg, id)
    ensures var reg := Run(start, steps).reg;
            (forall found :: Finds(reg, hook, found) ==> id !in Ended(reg, found).rows) <==> Impostors(reg, hook) == {}
  {
    SysRunKeepsInv(start, steps);
    var reg := Run(start, steps).reg;
    if Impostors(reg, hook) == {} {
      forall found | Finds(reg, hook, found)
        ensures id !in Ended(reg, found).rows
      {
        assert found.id !in Impostors(reg, hook);
        OneLocalRow(reg, hook, found.id, id);
      }
    } else {
      var f :| f in Impostors(reg, hook);
      assert Finds(reg, hook, Found(f, hook.incarnation, reg.rows[f].pane));
    }
  }

  // Rows of other origins have no pane, and no run gives them one.
  ghost predicate Paneless(reg: Registry) {
    forall id :: id in reg.rows && !reg.rows[id].isLocal ==> reg.rows[id].pane.None?
  }

  lemma StepKeepsPaneless(sys: Sys, step: SysStep)
    requires SysInv(sys) && OrderlyStep(sys, step) && Paneless(sys.reg)
    ensures Paneless(SysNext(sys, step).reg)
  {
    match step
    case Live(s) =>
      if s.RollBack? {
        assert LeaseOk(sys.reg, s.id);
      }
    case Save =>
    case Reload =>
      forall id | id in Reloaded(sys.disk).rows
        ensures Reloaded(sys.disk).rows[id].isLocal
      {
        assert LeaseOk(sys.disk, id);
      }
  }

  // So a hook that names its session by pane alone is sure to end it.
  lemma {:induction false} PaneHookHasNoImpostors(start: Sys, steps: seq<SysStep>, hook: Hook)
    requires SysInv(start) && Runs(start, steps) && Paneless(start.reg) && hook.sid.None?
    ensures Impostors(Run(start, steps).reg, hook) == {}
    decreases |steps|
  {
    if steps != [] {
      SysStepKeepsInv(start, steps[0]);
      StepKeepsPaneless(start, steps[0]);
      PaneHookHasNoImpostors(SysNext(start, steps[0]), steps[1..], hook);
    }
  }

  // The input on the wire: another daemon announces a row with the session's
  // backend session and incarnation, and a lookup can take it for the session.
  lemma AnnouncementHidesTheEnd(reg: Registry, id: string, hook: Hook, key: string, wire: Row)
    requires IsLocal(reg, id) && Names(hook, reg.rows[id])
    requires '/' in key && key !in reg.rows && hook.sid.Some? && hook.incarnation <= U64_MAX
    requires wire.incarnation == hook.incarnation && wire.sid == hook.sid
    ensures Enabled(reg, Announce(key, Some(wire)))
    ensures var after := Next(reg, Announce(key, Some(wire)));
            var found := Found(key, hook.incarnation, None);
            && Finds(after, hook, found) && key in Impostors(after, hook)
            && Ended(after, found) == after && IsLocal(after, id)
  {
  }

  // ----- names with a slash -----

  // A start accepts a name with a slash, and an announcement under that name
  // then rewrites a local row. A run in which that is not orderly: the start of "n/x", a registration
  // of y, and an announcement of x by the daemon named n.
  lemma SlashNameIsCaptured()
    ensures var row := UNKNOWN.(isLocal := true, incarnation := 1);
            var empty := Registry(map[], map[], map[], 0);
            && Enabled(empty, ReserveStart("n/x"))
            && var reserved := Next(empty, ReserveStart("n/x"));
               && Enabled(reserved, CommitStart("n/x", row))
               && var started := Next(reserved, CommitStart("n/x", row));
                  && Enabled(started, Register("y", row.(incarnation := 2)))
                  && var both := Next(started, Register("y", row.(incarnation := 2)));
                     && Enabled(both, Announce("n/x", Some(row.(incarnation := 2))))
                     && var after := Next(both, Announce("n/x", Some(row.(incarnation := 2))));
                        && IsLocal(after, "n/x") && IsLocal(after, "y")
                        && after.rows["n/x"].incarnation == after.rows["y"].incarnation == 2
  {
  }

  // ----- a late hook -----

  ghost predicate Nowhere(reg: Registry, n: nat) {
    forall id :: n !in Recorded(reg, id)
  }

  // The snapshot was written after n was handed out, and loading it brings no row with n.
  ghost predicate SettledOnDisk(disk: Registry, n: nat) {
    n <= disk.mark && Nowhere(Reloaded(disk), n)
  }

  // n was handed out, no session carries it now, and if the daemon can start
  // again from what it saved last, that snapshot knows as much.
  ghost predicate GoneForGood(sys: Sys, n: nat) {
    n <= sys.reg.mark && Nowhere(sys.reg, n) && (D.Loadable(sys.disk) ==> SettledOnDisk(sys.disk, n))
  }

  // Runs in which no announcement writes n into a local row: other daemons may
  // choose any number they have seen.
  ghost predicate RunsWithout(sys: Sys, steps: seq<SysStep>, n: nat)
    decreases |steps|
  {
    steps == [] || (
      && OrderlyStep(sys, steps[0])
      && !Repeats(sys, steps[0], n)
      && RunsWithout(SysNext(sys, steps[0]), steps[1..], n))
  }

  predicate Repeats(sys: Sys, step: SysStep, n: nat) {
    step.Live? && Captures(sys.reg, step.step) && step.step.wire.value.incarnation == n
  }

  lemma {:induction false} UnannouncedRunsWithout(sys: Sys, steps: seq<SysStep>, n: nat)
    requires Runs(sys, steps) && Unannounced(steps)
    ensures RunsWithout(sys, steps, n)
    decreases |steps|
  {
    if steps != [] {
      UnannouncedRunsWithout(SysNext(sys, steps[0]), steps[1..], n);
    }
  }

  lemma GoneLiveStepStays(reg: Registry, step: Step, n: nat)
    requires Inv(reg) && Enabled(reg, step) && n <= reg.mark && Nowhere(reg, n)
    requires Captures(reg, step) ==> step.wire.value.incarnation != n
    ensures Nowhere(Next(reg, step), n)
  {
    forall id
      ensures n !in Recorded(Next(reg, step), id)
    {
      if n in Recorded(Next(reg, step), id) {
        StepRecords(reg, step, id, n);
      }
    }
  }

  lemma GoneStepStays(sys: Sys, step: SysStep, n: nat)
    requires SysInv(sys) && OrderlyStep(sys, step) && !Repeats(sys, step, n) && GoneForGood(sys, n)
    ensures GoneForGood(SysNext(sys, step), n)
  {
    match step
    case Live(s) =>
      GoneLiveStepStays(sys.reg, s, n);
      StepKeepsMark(sys.reg, s);
    case Save =>
      WrittenKeepsInv(sys.reg);
      forall id
        ensures n !in Recorded(Reloaded(D.Written(sys.reg)), id)
      {
        ReloadedRecords(D.Written(sys.reg), id);
        assert Recorded(D.Written(sys.reg), id) == Recorded(sys.reg, id);
      }
    case Reload =>
  }

  lemma {:induction false} GoneStays(sys: Sys, steps: seq<SysStep>, n: nat)
    requires SysInv(sys) && RunsWithout(sys, steps, n) && GoneForGood(sys, n)
    ensures Nowhere(Run(sys, steps).reg, n)
    decreases |steps|
  {
    if steps != [] {
      SysStepKeepsInv(sys, steps[0]);
      GoneStepStays(sys, steps[0], n);
      GoneStays(SysNext(sys, steps[0]), steps[1..], n);
    }
  }

  // A number above the mark is handed out by and by.
  lemma IssuedByAndBy(sys: Sys, n: nat) returns (steps: seq<SysStep>)
    requires sys.reg.mark < n <= U64_MAX
    ensures RunsWithout(sys, steps, n) && !Nowhere(Run(sys, steps).reg, n)
  {
    var before, name := ReachesNext(sys, n);
    var end, start := Run(sys, before), Live(ReserveStart(name));
    assert n in Recorded(SysNext(end, start).reg, name);
    assert Run(SysNext(end, start), []) == SysNext(end, start);
    FirstThen(end, start, []);
    assert [start] + [] == [start];
    Concatenated(sys, before, [start]);
    UnannouncedRunsWithout(sys, before + [start], n);
    steps := before + [start];
  }

  lemma {:induction false} Concatenated(sys: Sys, first: seq<SysStep>, second: seq<SysStep>)
    requires Runs(sys, first) && Runs(Run(sys, first), second)
    ensures Runs(sys, first + second) && Run(sys, first + second) == Run(Run(sys, first), second)
    decreases |first|
  {
    if first == [] {
      assert first + second == second;
    } else {
      assert (first + second)[1..] == first[1..] + second;
      Concatenated(SysNext(sys, first[0]), first[1..], second);
    }
  }

  lemma ReturnsUnlessGone(sys: Sys, n: nat) returns (steps: seq<SysStep>)
    requires SysInv(sys) && 0 < n <= U64_MAX && !GoneForGood(sys, n)
    ensures RunsWithout(sys, steps, n) && !Nowhere(Run(sys, steps).reg, n)
  {
    if !Nowhere(sys.reg, n) {
      steps := [];
    } else if sys.reg.mark < n {
      steps := IssuedByAndBy(sys, n);
    } else {
      var back := SysNext(sys, Reload);
      var rest: seq<SysStep> := [];
      if sys.disk.mark < n {
        rest := IssuedByAndBy(back, n);
      } else {
        assert Run(back, rest) == back;
      }
      assert ([Reload] + rest)[1..] == rest;
      steps := [Reload] + rest;
    }
  }

  ghost predicate NeverRecorded(sys: Sys, n: nat) {
    forall steps :: RunsWithout(sys, steps, n) ==> Nowhere(Run(sys, steps).reg, n)
  }

  // An incarnation stays away over every run, crashes included, in which no
  // other daemon announces that very number for a local row, if and only if it
  // was handed out, no session carries it now, and the last snapshot, if a
  // daemon can start from it, knows both.
  lemma NeverBackIff(sys: Sys, n: nat)
    requires SysInv(sys) && 0 < n <= U64_MAX
    ensures NeverRecorded(sys, n) <==> GoneForGood(sys, n)
  {
    if GoneForGood(sys, n) {
      forall steps | RunsWithout(sys, steps, n)
        ensures Nowhere(Run(sys, steps).reg, n)
      {
        GoneStays(sys, steps, n);
      }
    } else {
      var steps := ReturnsUnlessGone(sys, n);
      assert RunsWithout(sys, steps, n) && !Nowhere(Run(sys, steps).reg, n);
    }
  }

  // However late a hook comes to retire what it found, crashes in between
  // included, it removes that very row or nothing; and once the incarnation is
  // gone for good it does nothing for ever, whatever rows have taken the id since.
  lemma LateHookIsHarmless(sys: Sys, steps: seq<SysStep>, found: Found)
    requires SysInv(sys) && RunsWithout(sys, steps, found.incarnation)
    ensures var later := Run(sys, steps).reg;
            var after := Ended(later, found);
            && (after != later <==> StillEnding(later, found))
            && (forall id :: id in later.rows && id !in after.rows ==>
                  id == found.id && later.rows[id].isLocal && later.rows[id].incarnation == found.incarnation)
            && (forall id :: id in after.rows ==> id in later.rows && after.rows[id] == later.rows[id])
            && (GoneForGood(sys, found.incarnation) ==> after == later)
  {
    var later := Run(sys, steps).reg;
    if StillEnding(later, found) {
      assert found.id !in Ended(later, found).rows;
      assert found.incarnation in Recorded(later, found.id);
    }
    if GoneForGood(sys, found.incarnation) {
      GoneStays(sys, steps, found.incarnation);
    }
  }
}
