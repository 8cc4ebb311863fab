// What runs of the registry keep: one owner for each backend session, and the
// adoption of an unbound row as a compare-and-commit against everything that
// can happen between discovery and commit.

module Adoption {
  import opened Options
  import opened SessionRow
  import opened BackendBinding
  import opened Lifecycle
  import Snapshot

  // ----- one owner for each backend session -----

  lemma SameHolders(a: Registry, b: Registry)
    requires a.rows == b.rows && a.dormant == b.dormant
    ensures Exclusive(a) <==> Exclusive(b)
  {
    assert forall id, pair :: HeldElsewhere(a, id, pair) <==> HeldElsewhere(b, id, pair);
  }

  // Dropping rows and dormant records takes a pair from nobody.
  lemma FewerHolders(a: Registry, b: Registry)
    requires Exclusive(a)
    requires forall id :: id in b.rows ==> id in a.rows && b.rows[id] == a.rows[id]
    requires forall d :: d in b.dormant ==> d in a.dormant && b.dormant[d] == a.dormant[d]
    ensures Exclusive(b)
  {
    assert forall id, pair :: HeldElsewhere(b, id, pair) ==> HeldElsewhere(a, id, pair);
  }

  // Staging a fresh launch, or one that resumes under the backend its row has,
  // is safe: the row holds nothing yet, or what it held already. A scheduled one
  // that resumes under another backend is safe exactly when that pair is free.
  lemma StagingIsExclusiveIff(reg: Registry, id: string, expected: Option<Reservation>, launch: Launch)
    requires Exclusive(reg) && CanStage(reg, id, expected, launch)
    ensures Exclusive(WithLaunch(reg, id, launch)) <==> StagesFreePair(reg, id, launch)
    ensures !launch.scheduled || reg.rows[id].backend == Some(launch.backend) ==> Exclusive(WithLaunch(reg, id, launch))
  {
    var row := LaunchedRow(reg.rows[id], launch, reg.mark + 1);
    if Complete(row) && reg.rows[id].backend == Some(launch.backend) {
      assert HoldsPair(reg.rows[id], Snapshot.Pair(row.backend.value, row.sid.value));
    }
    RowChangeIsExclusiveIff(reg, id, row);
    SameHolders(reg.(rows := reg.rows[id := row]), WithLaunch(reg, id, launch));
  }

  predicate StagesFreePair(reg: Registry, id: string, launch: Launch)
    requires id in reg.rows
  {
    launch.scheduled ==> Free(reg, id, LaunchedRow(reg.rows[id], launch, reg.mark + 1))
  }

  // A schedule that names the backend of another session with the same session
  // id makes both hold it.
  lemma ScheduledLaunchCanShareASession(
      reg: Registry, id: string, other: string, expected: Option<Reservation>, launch: Launch)
    requires Exclusive(reg) && CanStage(reg, id, expected, launch)
    requires launch.leased && launch.scheduled && !launch.freshly && reg.rows[id].sid.Some?
    requires other != id && IsLocal(reg, other)
    requires HoldsPair(reg.rows[other], Snapshot.Pair(launch.backend, reg.rows[id].sid.value))
    ensures !Exclusive(WithLaunch(reg, id, launch))
  {
    StagingIsExclusiveIff(reg, id, expected, launch);
    assert HeldByRow(reg, id, Snapshot.Pair(launch.backend, reg.rows[id].sid.value));
  }

  // A row may take a pair that only a dropped dormant record held.
  lemma NewRowKeepsExclusive(reg: Registry, id: string, row: Row)
    requires Exclusive(reg) && Free(reg.(dormant := reg.dormant - {id}), id, row)
    ensures Exclusive(reg.(rows := reg.rows[id := row], dormant := reg.dormant - {id}))
  {
    var rest := reg.(dormant := reg.dormant - {id});
    FewerHolders(reg, rest);
    RowChangeIsExclusiveIff(rest, id, row);
  }

  lemma RenameKeepsExclusive(reg: Registry, from: string, to: string)
    requires Exclusive(reg) && IsLocal(reg, from) && to !in reg.rows
    ensures Exclusive(reg.(rows := (reg.rows - {from})[to := reg.rows[from]], dormant := reg.dormant - {to}))
  {
    var row := reg.rows[from];
    var rest := reg.(rows := reg.rows - {from});
    FewerHolders(reg, rest);
    if Complete(row) {
      var pair := Snapshot.Pair(row.backend.value, row.sid.value);
      assert HoldsPair(row, pair) && !HeldElsewhere(reg, from, pair);
    }
    NewRowKeepsExclusive(rest, to, row);
  }

  lemma RetiringKeepsExclusive(reg: Registry, id: string)
    requires Exclusive(reg) && IsLocal(reg, id)
    ensures Exclusive(Retired(reg, id))
  {
    var after := Retired(reg, id);
    forall a, pair | a in after.rows && after.rows[a].isLocal && HoldsPair(after.rows[a], pair)
      ensures !HeldElsewhere(after, a, pair)
    {
      assert !HeldElsewhere(reg, a, pair);
      assert HoldsPair(reg.rows[id], pair) ==> HeldByRow(reg, a, pair);
    }
  }

  // Four steps write a pair into a local row without asking who holds it.
  predicate TakesFreePair(reg: Registry, step: Step)
    requires Enabled(reg, step)
  {
    match step
    case Stage(id, _, launch) => StagesFreePair(reg, id, launch)
    case Finalize(id, meta) => Free(reg, id, FinalizedRow(reg.rows[id], meta))
    case RollBack(id) => Free(reg, id, reg.leases[id].previous.value)
    case Announce(id, _) => Captures(reg, step) ==> Free(reg, id, WireRow(reg.rows[id], step.wire.value))
    case _ => true
  }

  // Every step keeps one owner for each backend session, except staging a
  // scheduled launch, finalizing a launch, rolling a restart back, and an
  // announcement under the name of a local row: those do exactly when the pair
  // is free.
  lemma StepIsExclusiveIff(reg: Registry, step: Step)
    requires Exclusive(reg) && Enabled(reg, step)
    ensures Exclusive(Next(reg, step)) <==> TakesFreePair(reg, step)
  {
    match step
    case CommitStart(id, row) => NewRowKeepsExclusive(reg, id, row);
    case Register(id, row) => NewRow(reg, step, id, row);
    case Recover(id, row) => NewRow(reg, step, id, row);
    case Stage(id, expected, launch) => StagingIsExclusiveIff(reg, id, expected, launch);
    case Bind(id, pair, _) => RowChangeIsExclusiveIff(reg, id, BoundRow(reg.rows[id], pair));
    case RecoverIdentity(id, pair) => RowChangeIsExclusiveIff(reg, id, PairedRow(reg.rows[id], pair));
    case Rebind(id, pair) => RowChangeIsExclusiveIff(reg, id, PairedRow(reg.rows[id], pair));
    case Commit(c, sid) => AdoptionKeepsExclusive(reg, c, sid);
    case Finalize(id, meta) => RowChangeIsExclusiveIff(reg, id, FinalizedRow(reg.rows[id], meta));
    case RollBack(id) =>
      RowChangeIsExclusiveIff(reg, id, reg.leases[id].previous.value);
      SameHolders(reg.(rows := reg.rows[id := reg.leases[id].previous.value]), RolledBack(reg, id));
    case Rename(from, to) => RenameKeepsExclusive(reg, from, to);
    case Retire(id) => RetiringKeepsExclusive(reg, id);
    case Announce(id, wire) => AnnouncingIsExclusiveIff(reg, step);
    case Remove(_) => FewerHolders(reg, Next(reg, step));
    case Forget(_) => FewerHolders(reg, Next(reg, step));
    case _ => SameHolders(reg, Next(reg, step));
  }

  lemma NewRow(reg: Registry, step: Step, id: string, row: Row)
    requires Exclusive(reg) && Enabled(reg, step)
    requires step == Register(id, row) || step == Recover(id, row)
    ensures Exclusive(Next(reg, step))
  {
    NewRowKeepsExclusive(reg, id, row);
    SameHolders(reg.(rows := reg.rows[id := row], dormant := reg.dormant - {id}), Next(reg, step));
  }

  lemma AdoptionKeepsExclusive(reg: Registry, c: Candidate, sid: string)
    requires Exclusive(reg)
    ensures Exclusive(CommitAdoption(reg, c, sid))
  {
    if Adopts(reg, c, sid) {
      RowChangeIsExclusiveIff(reg, c.id, AdoptedRow(reg.rows[c.id], OpenCode(sid), c.credential));
    }
  }

  lemma AnnouncingIsExclusiveIff(reg: Registry, step: Step)
    requires Exclusive(reg) && Enabled(reg, step) && step.Announce?
    ensures Exclusive(Next(reg, step)) <==> TakesFreePair(reg, step)
  {
    if step.id !in reg.rows || step.wire.Some? {
      RowChangeIsExclusiveIff(reg, step.id, Next(reg, step).rows[step.id]);
    }
  }

  // A run on which the rollback's condition fails: while a is being restarted
  // afresh, b binds the session a had; then a is rolled back.
  const SESSION := Snapshot.Pair("codex", "s")
  const ROW_A := Row(true, None, 1, 0, Some("codex"), Some("s"), None, Some("/a"), None, None)
  const ROW_B := Row(true, None, 2, 0, Some("codex"), None, Some("key"), Some("/b"), None, None)
  const AFRESH := Launch("codex", Some("new"), true, None, true, false)

  function Unclaimed(): Registry {
    Registry(map["a" := ROW_A, "b" := ROW_B], map[], map[], 2)
  }

  function Claimed(): Registry {
    Unclaimed().(leases := map["a" := RestartLease(ROW_A)])
  }

  function Relaunched(): Registry {
    Registry(map["a" := LaunchedRow(ROW_A, AFRESH, 3), "b" := ROW_B], map[],
             map["a" := RestartLease(ROW_A).(target := Some(3), previous := Some(ROW_A))], 3)
  }

  function BothBound(): Registry {
    Relaunched().(rows := map["a" := LaunchedRow(ROW_A, AFRESH, 3), "b" := BoundRow(ROW_B, SESSION)])
  }

  lemma RollbackCanShareASession()
    ensures Exclusive(Unclaimed())
    ensures Enabled(Unclaimed(), ClaimRestart("a")) && Next(Unclaimed(), ClaimRestart("a")) == Claimed()
    ensures Enabled(Claimed(), Stage("a", None, AFRESH)) && Next(Claimed(), Stage("a", None, AFRESH)) == Relaunched()
    ensures var bind := Bind("b", SESSION, Some("key"));
            Enabled(Relaunched(), bind) && Next(Relaunched(), bind) == BothBound()
    ensures Exclusive(BothBound())
    ensures Enabled(BothBound(), RollBack("a")) && !Exclusive(Next(BothBound(), RollBack("a")))
  {
    ClaimsFirst();
    StagesNext();
    BindsMeanwhile();
    RollsBackOntoIt();
  }

  lemma ClaimsFirst()
    ensures Exclusive(Unclaimed())
    ensures Enabled(Unclaimed(), ClaimRestart("a")) && Next(Unclaimed(), ClaimRestart("a")) == Claimed()
  {
  }

  lemma StagesNext()
    ensures Enabled(Claimed(), Stage("a", None, AFRESH)) && Next(Claimed(), Stage("a", None, AFRESH)) == Relaunched()
  {
  }

  lemma BindsMeanwhile()
    ensures var bind := Bind("b", SESSION, Some("key"));
            Enabled(Relaunched(), bind) && Next(Relaunched(), bind) == BothBound()
  {
    assert CanBind(Relaunched(), "b", SESSION, Some("key"));
    assert Next(Relaunched(), Bind("b", SESSION, Some("key"))).rows == BothBound().rows;
  }

  lemma RollsBackOntoIt()
    ensures Exclusive(BothBound())
    ensures Enabled(BothBound(), RollBack("a")) && !Exclusive(Next(BothBound(), RollBack("a")))
  {
    var after := Next(BothBound(), RollBack("a"));
    assert after.rows["a"].isLocal && HoldsPair(after.rows["a"], SESSION);
    assert after.rows["b"].isLocal && HoldsPair(after.rows["b"], SESSION);
    assert HeldByRow(after, "a", SESSION);
  }

  // ----- what happened to a row since it was discovered -----

  // Where the row of one incarnation is: in place, set aside as what a restart
  // would fall back to, or gone; and whether it is blank.
  datatype Place = At(id: string, blank: bool) | Aside(id: string, blank: bool) | Gone

  function Moved(reg: Registry, step: Step, place: Place): Place
    requires Enabled(reg, step)
  {
    match place
    case Gone => Gone
    case Aside(id, blank) =>
      if step == RollBack(id) then At(id, blank) else if step == EndLease(id) then Gone else place
    case At(id, blank) =>
      match step
      case Stage(i, _, launch) => if i != id then place else if launch.leased then Aside(id, blank) else Gone
      case Register(i, _) => if i == id then Gone else place
      case RollBack(i) => if i == id then Gone else place
      case Remove(i) => if i == id then Gone else place
      case Retire(i) => if i == id then Gone else place
      case Rename(from, to) => if from == id then At(to, blank) else place
      case Bind(i, _, _) => At(id, blank && i != id)
      case RecoverIdentity(i, _) => At(id, blank && i != id)
      case Commit(c, sid) => At(id, blank && !(c.id == id && Adopts(reg, c, sid)))
      case Finalize(i, _) => At(id, blank && i != id)
      case Announce(i, wire) => if i == id && wire.Some? then Gone else place
      case _ => place
  }

  // An announcement may rewrite a local row if that is orderly, nothing is in
  // progress on it, and it does not write the very number that is watched.
  ghost predicate Candid(reg: Registry, step: Step, n: nat) {
    Captures(reg, step) ==>
      Orderly(reg, step) && !Leased(reg, step.id) && step.wire.value.incarnation != n
  }

  ghost predicate CandidRun(reg: Registry, steps: seq<Step>, n: nat)
    decreases |steps|
  {
    steps == [] || (Enabled(reg, steps[0]) && Candid(reg, steps[0], n) && CandidRun(Next(reg, steps[0]), steps[1..], n))
  }

  lemma {:induction false} CandidIsValid(reg: Registry, steps: seq<Step>, n: nat)
    requires CandidRun(reg, steps, n)
    ensures Valid(reg, steps)
    decreases |steps|
  {
    if steps != [] {
      CandidIsValid(Next(reg, steps[0]), steps[1..], n);
    }
  }

  function Track(reg: Registry, steps: seq<Step>, place: Place): Place
    requires Valid(reg, steps)
    decreases |steps|
  {
    if steps == [] then place else Track(Next(reg, steps[0]), steps[1..], Moved(reg, steps[0], place))
  }

  predicate Standing(reg: Registry, n: nat, place: Place) {
    match place
    case At(id, blank) => IsLocal(reg, id) && reg.rows[id].incarnation == n && blank == Blank(reg.rows[id])
    case Aside(id, blank) =>
      && id in reg.leases
      && reg.leases[id].previous.Some?
      && reg.leases[id].previous.value.incarnation == n
      && reg.leases[id].previous.value.isLocal
      && blank == Blank(reg.leases[id].previous.value)
    case Gone => true
  }

  // A blank local row of that number, in place or one rollback away.
  predicate InPlace(reg: Registry, n: nat, id: string) {
    IsLocal(reg, id) && reg.rows[id].incarnation == n && Blank(reg.rows[id])
  }

  predicate OneRollbackAway(reg: Registry, n: nat, id: string) {
    && CanRollBack(reg, id)
    && reg.leases[id].previous.value.incarnation == n && Blank(reg.leases[id].previous.value)
  }

  // Nobody but the row that is tracked could pass for it from this id.
  predicate NotAt(reg: Registry, n: nat, place: Place, id: string) {
    && (InPlace(reg, n, id) ==> place.At? && place.id == id)
    && (OneRollbackAway(reg, n, id) ==> place.Aside? && place.id == id)
    && (id in reg.leases && reg.leases[id].phase.Starting? && reg.leases[id].owner == n ==> IsLocal(reg, id))
  }

  // Nothing is renamed to a name with a slash, so only that name matters then.
  predicate Relevant(name: string, id: string) {
    '/' !in name || id == name
  }

  ghost predicate Tracked(reg: Registry, n: nat, name: string, place: Place) {
    n <= reg.mark && Standing(reg, n, place) && forall id :: Relevant(name, id) ==> NotAt(reg, n, place, id)
  }

  lemma StepKeepsStanding(reg: Registry, step: Step, n: nat, place: Place)
    requires Inv(reg) && Enabled(reg, step) && Standing(reg, n, place) && Candid(reg, step, n)
    ensures Standing(Next(reg, step), n, Moved(reg, step, place))
  {
    match place
    case At(_, _) => StepKeepsRow(reg, step, n, place);
    case Aside(_, _) => StepKeepsAside(reg, step, n, place);
    case Gone =>
  }

  lemma StepKeepsRow(reg: Registry, step: Step, n: nat, place: Place)
    requires Inv(reg) && Enabled(reg, step) && Standing(reg, n, place) && place.At?
    ensures Standing(Next(reg, step), n, Moved(reg, step, place))
  {
    if Edits(step) {
      EditKeepsRow(reg, step, n, place);
    } else if Issues(step) {
      IssueKeepsRow(reg, step, n, place);
    } else {
      OtherKeepsRow(reg, step, n, place);
    }
  }

  lemma EditKeepsRow(reg: Registry, step: Step, n: nat, place: Place)
    requires Enabled(reg, step) && Standing(reg, n, place) && place.At? && Edits(step)
    ensures Standing(Next(reg, step), n, Moved(reg, step, place))
  {
  }

  lemma IssueKeepsRow(reg: Registry, step: Step, n: nat, place: Place)
    requires Enabled(reg, step) && Standing(reg, n, place) && place.At? && Issues(step)
    ensures Standing(Next(reg, step), n, Moved(reg, step, place))
  {
  }

  lemma OtherKeepsRow(reg: Registry, step: Step, n: nat, place: Place)
    requires Enabled(reg, step) && Standing(reg, n, place) && place.At? && !Edits(step) && !Issues(step)
    ensures Standing(Next(reg, step), n, Moved(reg, step, place))
  {
  }

  lemma StepKeepsAside(reg: Registry, step: Step, n: nat, place: Place)
    requires Inv(reg) && Enabled(reg, step) && Standing(reg, n, place) && place.Aside?
    ensures Standing(Next(reg, step), n, Moved(reg, step, place))
  {
    assert LeaseOk(reg, place.id);
    if Issues(step) {
      IssueKeepsAside(reg, step, n, place);
    } else if LeaseStep(step) {
      LeasingKeepsAside(reg, step, n, place);
    } else {
      RowStepKeepsLeases(reg, step);
    }
  }

  lemma IssueKeepsAside(reg: Registry, step: Step, n: nat, place: Place)
    requires Enabled(reg, step) && Standing(reg, n, place) && place.Aside? && Issues(step)
    ensures Standing(Next(reg, step), n, Moved(reg, step, place))
  {
  }

  lemma LeasingKeepsAside(reg: Registry, step: Step, n: nat, place: Place)
    requires Enabled(reg, step) && Standing(reg, n, place) && place.Aside? && LeaseStep(step)
    ensures Standing(Next(reg, step), n, Moved(reg, step, place))
  {
  }

  lemma IssueKeepsNotAt(reg: Registry, step: Step, n: nat, place: Place, id: string)
    requires Inv(reg) && Enabled(reg, step) && Issues(step) && n <= reg.mark
    requires NotAt(reg, n, place, id)
    ensures NotAt(Next(reg, step), n, Moved(reg, step, place), id)
  {
    assert LeaseOk(reg, id);
  }

  lemma RelocateKeepsNotAt(reg: Registry, step: Step, n: nat, place: Place, id: string)
    requires Inv(reg) && Enabled(reg, step) && (step.Rename? || step.RollBack?)
    requires NotAt(reg, n, place, id) && (step.Rename? && id == step.to ==> NotAt(reg, n, place, step.from))
    ensures NotAt(Next(reg, step), n, Moved(reg, step, place), id)
  {
  }

  lemma LeasingKeepsNotAt(reg: Registry, step: Step, n: nat, place: Place, id: string)
    requires Inv(reg) && Enabled(reg, step) && LeaseStep(step) && NotAt(reg, n, place, id)
    ensures NotAt(Next(reg, step), n, Moved(reg, step, place), id)
  {
  }

  lemma EditKeepsNotAt(reg: Registry, step: Step, n: nat, place: Place, id: string)
    requires Inv(reg) && Enabled(reg, step) && Edits(step) && NotAt(reg, n, place, id)
    ensures NotAt(Next(reg, step), n, Moved(reg, step, place), id)
  {
    EditKeepsNumbers(reg, step, id);
  }

  lemma OtherKeepsNotAt(reg: Registry, step: Step, n: nat, place: Place, id: string)
    requires Inv(reg) && Enabled(reg, step) && Candid(reg, step, n) && NotAt(reg, n, place, id)
    requires !Issues(step) && !LeaseStep(step) && !Edits(step) && !step.Rename? && !step.RollBack?
    ensures NotAt(Next(reg, step), n, Moved(reg, step, place), id)
  {
  }

  lemma StepKeepsNotAt(reg: Registry, step: Step, n: nat, name: string, place: Place, id: string)
    requires Inv(reg) && Enabled(reg, step) && Candid(reg, step, n) && Tracked(reg, n, name, place)
    requires Relevant(name, id)
    ensures NotAt(Next(reg, step), n, Moved(reg, step, place), id)
  {
    assert NotAt(reg, n, place, id);
    if Issues(step) {
      IssueKeepsNotAt(reg, step, n, place, id);
    } else if LeaseStep(step) {
      LeasingKeepsNotAt(reg, step, n, place, id);
    } else if Edits(step) {
      EditKeepsNotAt(reg, step, n, place, id);
    } else if step.Rename? || step.RollBack? {
      assert step.Rename? && id == step.to ==> Relevant(name, step.from);
      RelocateKeepsNotAt(reg, step, n, place, id);
    } else {
      OtherKeepsNotAt(reg, step, n, place, id);
    }
  }

  lemma StepKeepsTracked(reg: Registry, step: Step, n: nat, name: string, place: Place)
    requires Inv(reg) && Enabled(reg, step) && Candid(reg, step, n) && Tracked(reg, n, name, place)
    ensures Inv(Next(reg, step)) && Tracked(Next(reg, step), n, name, Moved(reg, step, place))
  {
    StepIsNumberedIff(reg, step);
    StepKeepsMark(reg, step);
    StepKeepsStanding(reg, step, n, place);
    forall id | Relevant(name, id)
      ensures NotAt(Next(reg, step), n, Moved(reg, step, place), id)
    {
      StepKeepsNotAt(reg, step, n, name, place, id);
    }
  }

  lemma {:induction false} RunTracks(reg: Registry, steps: seq<Step>, n: nat, name: string, place: Place)
    requires Inv(reg) && CandidRun(reg, steps, n) && Tracked(reg, n, name, place)
    ensures Valid(reg, steps) && Tracked(Exec(reg, steps), n, name, Track(reg, steps, place))
    decreases |steps|
  {
    if steps != [] {
      StepKeepsTracked(reg, steps[0], n, name, place);
      RunTracks(Next(reg, steps[0]), steps[1..], n, name, Moved(reg, steps[0], place));
    }
  }

  // ----- who can pass for the candidate -----

  // Another blank row of the candidate's incarnation can take its name.
  ghost predicate Confusable(reg: Registry, c: Candidate) {
    '/' !in c.id && exists id :: id != c.id && CanPass(reg, c.incarnation, id)
  }

  predicate CanPass(reg: Registry, n: nat, id: string) {
    InPlace(reg, n, id) || OneRollbackAway(reg, n, id)
  }

  lemma CandidateIsTracked(seen: Registry, dir: string)
    requires Inv(seen) && Discover(seen, dir).Some? && !Confusable(seen, Discover(seen, dir).value)
    ensures var c := Discover(seen, dir).value; Tracked(seen, c.incarnation, c.id, At(c.id, true))
  {
    var c := Discover(seen, dir).value;
    assert c.id in Unbounds(seen, dir);
    assert c.incarnation in Recorded(seen, c.id);
    forall id | Relevant(c.id, id)
      ensures NotAt(seen, c.incarnation, At(c.id, true), id)
    {
      assert FallbackOk(seen, id) && LeaseOk(seen, id);
      assert id != c.id && '/' !in c.id ==> !CanPass(seen, c.incarnation, id);
      assert 0 < c.incarnation && c.incarnation in Recorded(seen, id) ==> id == c.id;
    }
  }

  // Over every run between discovery and commit, the comparison finds out
  // exactly whether the discovered row stands in its place and blank: whether
  // it was never bound, adopted, staged, replaced, renamed away or removed, or
  // was put back as it was. The commit changes the registry exactly then, if
  // the backend session is available to the row.
  lemma AdoptionDetectsInterference(seen: Registry, dir: string, steps: seq<Step>, sid: string)
    requires Inv(seen) && Discover(seen, dir).Some? && !Confusable(seen, Discover(seen, dir).value)
    requires CandidRun(seen, steps, Discover(seen, dir).value.incarnation)
    ensures Valid(seen, steps)
    ensures var c := Discover(seen, dir).value;
            var reg := Exec(seen, steps);
            var undisturbed := Track(seen, steps, At(c.id, true)) == At(c.id, true);
            && (StillCandidate(reg, c) <==> undisturbed)
            && (CommitAdoption(reg, c, sid) != reg <==> undisturbed && Available(reg, c.id, OpenCode(sid)))
  {
    var c := Discover(seen, dir).value;
    assert c.id in Unbounds(seen, dir);
    CandidateIsTracked(seen, dir);
    RunTracks(seen, steps, c.incarnation, c.id, At(c.id, true));
    var reg, place := Exec(seen, steps), Track(seen, steps, At(c.id, true));
    assert NotAt(reg, c.incarnation, place, c.id);
    AdoptionComparesAndCommits(seen, dir, reg, sid);
  }

  // The comparison accepts a row that is not the one in that place.
  ghost predicate Mistakes(reg: Registry, steps: seq<Step>, c: Candidate, place: Place) {
    && CandidRun(reg, steps, c.incarnation)
    && Valid(reg, steps)
    && StillCandidate(Exec(reg, steps), c)
    && Track(reg, steps, place) != At(c.id, true)
  }

  lemma FirstThen(reg: Registry, step: Step, rest: seq<Step>, c: Candidate, place: Place)
    requires Enabled(reg, step) && Candid(reg, step, c.incarnation)
    requires Mistakes(Next(reg, step), rest, c, Moved(reg, step, place))
    ensures Mistakes(reg, [step] + rest, c, place)
  {
    assert ([step] + rest)[1..] == rest;
  }

  // Some plain name is free in any finite set.
  lemma {:induction false} FreshName(taken: set<string>) returns (name: string)
    ensures '/' !in name && forall other :: other in taken ==> |other| < |name|
  {
    if taken == {} {
      name := "a";
    } else {
      var some :| some in taken;
      name := FreshName(taken - {some});
      assert forall other :: other in taken ==> other == some || other in taken - {some};
      if |name| <= |some| {
        name := seq(|some| + 1, _ => 'a');
      }
    }
  }

  // Two renames give the candidate's name to the other row.
  lemma SwapNames(reg: Registry, c: Candidate, id: string) returns (steps: seq<Step>)
    requires c == CandidateOf(c.id, UNKNOWN.(incarnation := c.incarnation))
    requires IsLocal(reg, c.id) && IsLocal(reg, id) && id != c.id && '/' !in c.id
    requires !Leased(reg, c.id) && !Leased(reg, id)
    requires Blank(reg.rows[id]) && reg.rows[id].incarnation == c.incarnation
    ensures Mistakes(reg, steps, c, At(c.id, true))
  {
    var name := FreshName(reg.rows.Keys + reg.leases.Keys);
    assert name !in reg.rows.Keys + reg.leases.Keys;
    var away, here := Rename(c.id, name), Rename(id, c.id);
    var once := Next(reg, away);
    var twice := Next(once, here);
    assert Mistakes(twice, [], c, At(name, true));
    FirstThen(once, here, [], c, At(name, true));
    FirstThen(reg, away, [here] + [], c, At(c.id, true));
    steps := [away] + ([here] + []);
  }

  // What is in progress on either ends first.
  lemma EndLeasesFirst(reg: Registry, c: Candidate, id: string) returns (steps: seq<Step>)
    requires c == CandidateOf(c.id, UNKNOWN.(incarnation := c.incarnation))
    requires IsLocal(reg, c.id) && id != c.id && '/' !in c.id && InPlace(reg, c.incarnation, id)
    ensures Mistakes(reg, steps, c, At(c.id, true))
    decreases if Leased(reg, c.id) then 1 else 0, if Leased(reg, id) then 1 else 0
  {
    if Leased(reg, c.id) {
      var rest := EndLeasesFirst(Next(reg, EndLease(c.id)), c, id);
      FirstThen(reg, EndLease(c.id), rest, c, At(c.id, true));
      steps := [EndLease(c.id)] + rest;
    } else if Leased(reg, id) {
      var rest := EndLeasesFirst(Next(reg, EndLease(id)), c, id);
      FirstThen(reg, EndLease(id), rest, c, At(c.id, true));
      steps := [EndLease(id)] + rest;
    } else {
      steps := SwapNames(reg, c, id);
    }
  }

  lemma ConfusableIsMistaken(reg: Registry, c: Candidate) returns (steps: seq<Step>)
    requires c == CandidateOf(c.id, UNKNOWN.(incarnation := c.incarnation))
    requires Shaped(reg) && IsLocal(reg, c.id) && Confusable(reg, c)
    ensures Mistakes(reg, steps, c, At(c.id, true))
  {
    var id :| id != c.id && CanPass(reg, c.incarnation, id);
    if InPlace(reg, c.incarnation, id) {
      steps := EndLeasesFirst(reg, c, id);
    } else {
      assert LeaseOk(reg, id);
      var rest := EndLeasesFirst(Next(reg, RollBack(id)), c, id);
      FirstThen(reg, RollBack(id), rest, c, At(c.id, true));
      steps := [RollBack(id)] + rest;
    }
  }

  // Some run ends with the comparison taking another row for the candidate if
  // and only if, at discovery, another blank row of its incarnation can take
  // its name. Only legacy rows, which all carry incarnation 0, share one.
  lemma CandidateIsMistakenIff(seen: Registry, dir: string)
    requires Inv(seen) && Discover(seen, dir).Some?
    ensures var c := Discover(seen, dir).value;
            (exists steps :: Mistakes(seen, steps, c, At(c.id, true))) <==> Confusable(seen, c)
    ensures Discover(seen, dir).value.incarnation > 0 ==> !Confusable(seen, Discover(seen, dir).value)
  {
    var c := Discover(seen, dir).value;
    assert c.id in Unbounds(seen, dir);
    if Confusable(seen, c) {
      var steps := ConfusableIsMistaken(seen, c);
    } else {
      forall steps | CandidRun(seen, steps, c.incarnation)
        ensures !Mistakes(seen, steps, c, At(c.id, true))
      {
        AdoptionDetectsInterference(seen, dir, steps, "");
      }
    }
    if c.incarnation > 0 {
      IssuedIsNotConfusable(seen, dir);
    }
  }

  lemma IssuedIsNotConfusable(seen: Registry, dir: string)
    requires Inv(seen) && Discover(seen, dir).Some? && Discover(seen, dir).value.incarnation > 0
    ensures !Confusable(seen, Discover(seen, dir).value)
  {
    var c := Discover(seen, dir).value;
    assert c.id in Unbounds(seen, dir);
    assert c.incarnation in Recorded(seen, c.id);
    forall id | CanPass(seen, c.incarnation, id)
      ensures id == c.id
    {
      assert c.incarnation in Recorded(seen, id);
    }
  }
}
