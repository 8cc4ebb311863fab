// The registry of session rows with the backend sessions they hold, dormant
// rows and lifecycle leases: who holds what, adoption as a compare-and-commit,
// and a class whose methods update the rows in place.

module BackendBinding {
  import opened Options
  import opened SessionRow
  import Snapshot

  datatype LeasePhase = Starting | Restarting | Stopping

  // A lifecycle operation in progress on the session it is filed under. owner:
  // the incarnation it was claimed for. target and previous: what a restart
  // has staged, and the row it would fall back to. The rest are the resources
  // it has recorded; the pair belongs to the target of a restart, and to the
  // owner of a stop.
  datatype Lease = Lease(
    phase: LeasePhase,
    owner: nat,
    target: Option<nat>,
    previous: Option<Row>,
    pair: Option<Snapshot.Pair>,
    project: Option<string>,
    pane: Option<string>,
    paneOwner: Option<nat>)

  datatype Registry = Registry(
    rows: map<string, Row>,
    dormant: map<string, Row>,
    leases: map<string, Lease>,
    mark: nat)

  function RefuseRepair(reg: Registry, id: string, backend: string): Option<Refusal> {
    if id in reg.rows then RefuseRow(reg.rows[id], backend) else Some(TargetNotFound)
  }

  // ----- who holds a backend session -----

  predicate HeldByDormant(reg: Registry, pair: Snapshot.Pair) {
    exists d :: d in reg.dormant && HoldsPair(reg.dormant[d], pair)
  }

  predicate HeldByRow(reg: Registry, id: string, pair: Snapshot.Pair) {
    exists other :: other in reg.rows && other != id && reg.rows[other].isLocal && HoldsPair(reg.rows[other], pair)
  }

  predicate HeldElsewhere(reg: Registry, id: string, pair: Snapshot.Pair) {
    HeldByDormant(reg, pair) || HeldByRow(reg, id, pair)
  }

  predicate Free(reg: Registry, id: string, row: Row) {
    row.isLocal && Complete(row) ==> !HeldElsewhere(reg, id, Snapshot.Pair(row.backend.value, row.sid.value))
  }

  // ----- what a lease keeps others from -----

  predicate OwnsTarget(lease: Lease, leaseId: string, id: string, row: Row) {
    leaseId == id && (lease.owner == row.incarnation || lease.target == Some(row.incarnation))
  }

  // The lease of another owner has the row's id, pane or project, or the pair.
  predicate LeaseBlocks(lease: Lease, leaseId: string, id: string, row: Row, pair: Snapshot.Pair) {
    && !OwnsTarget(lease, leaseId, id, row)
    && (|| leaseId == id
        || (row.pane.Some? && lease.pane == row.pane)
        || lease.pair == Some(pair)
        || (row.projectDir.Some? && lease.project == row.projectDir)
        || (row.canonicalProject.Some? && lease.project == row.canonicalProject))
  }

  predicate LeaseConflict(reg: Registry, id: string, pair: Snapshot.Pair)
    requires id in reg.rows
  {
    exists l :: l in reg.leases && LeaseBlocks(reg.leases[l], l, id, reg.rows[id], pair)
  }

  predicate StopInProgress(reg: Registry, id: string) {
    id in reg.leases && reg.leases[id].phase.Stopping?
  }

  // Nothing in the registry stands in the way of this row taking this pair.
  predicate Available(reg: Registry, id: string, pair: Snapshot.Pair)
    requires id in reg.rows
  {
    !StopInProgress(reg, id) && !LeaseConflict(reg, id, pair) && !HeldElsewhere(reg, id, pair)
  }

  // Resource by resource, what must not stand in the way: a stop, or another
  // owner's operation, on the session itself; an operation on another session
  // that has the row's pane, the pair, or the row's directory or project; and
  // any other local row, or dormant one, with the pair.
  ghost predicate Unobstructed(reg: Registry, id: string, pair: Snapshot.Pair)
    requires id in reg.rows
  {
    var row := reg.rows[id];
    && (id in reg.leases ==>
          && !reg.leases[id].phase.Stopping?
          && (reg.leases[id].owner == row.incarnation || reg.leases[id].target == Some(row.incarnation)))
    && (forall l :: l in reg.leases && l != id ==>
          && (row.pane.Some? ==> reg.leases[l].pane != row.pane)
          && reg.leases[l].pair != Some(pair)
          && (row.projectDir.Some? ==> reg.leases[l].project != row.projectDir)
          && (row.canonicalProject.Some? ==> reg.leases[l].project != row.canonicalProject))
    && (forall other :: other in reg.rows && other != id && reg.rows[other].isLocal ==>
          reg.rows[other].backend != Some(pair.backend) || reg.rows[other].sid != Some(pair.sessionId))
    && (forall d :: d in reg.dormant ==>
          reg.dormant[d].backend != Some(pair.backend) || reg.dormant[d].sid != Some(pair.sessionId))
  }

  lemma AvailableIff(reg: Registry, id: string, pair: Snapshot.Pair)
    requires id in reg.rows
    ensures Available(reg, id, pair) <==> Unobstructed(reg, id, pair)
  {
    if Available(reg, id, pair) {
      AvailableIsUnobstructed(reg, id, pair);
    } else {
      ObstructedIsUnavailable(reg, id, pair);
    }
  }

  lemma AvailableIsUnobstructed(reg: Registry, id: string, pair: Snapshot.Pair)
    requires id in reg.rows && Available(reg, id, pair)
    ensures Unobstructed(reg, id, pair)
  {
    assert forall l :: l in reg.leases ==> !LeaseBlocks(reg.leases[l], l, id, reg.rows[id], pair);
    assert forall d :: d in reg.dormant ==> !HoldsPair(reg.dormant[d], pair);
    assert forall other :: other in reg.rows && other != id && reg.rows[other].isLocal ==>
                             !HoldsPair(reg.rows[other], pair);
  }

  lemma ObstructedIsUnavailable(reg: Registry, id: string, pair: Snapshot.Pair)
    requires id in reg.rows && !Available(reg, id, pair)
    ensures !Unobstructed(reg, id, pair)
  {
    if LeaseConflict(reg, id, pair) {
      var l :| l in reg.leases && LeaseBlocks(reg.leases[l], l, id, reg.rows[id], pair);
    }
  }

  // The hook that reports a backend session must show the credential of the
  // launch pending on the row, whose backend half it cannot change, and the
  // session must be open to it. It uses the credential up: no other report of
  // that launch binds the row again.
  lemma BindingUsesItsLaunchUp(
      reg: Registry, id: string, pair: Snapshot.Pair, credential: Option<string>, again: Snapshot.Pair)
    requires id in reg.rows
    ensures CanBind(reg, id, pair, credential) <==>
            && reg.rows[id].isLocal && credential.Some? && reg.rows[id].credential == credential
            && reg.rows[id].sid.None? && reg.rows[id].backend in {None, Some(pair.backend)}
            && Unobstructed(reg, id, pair)
    ensures CanBind(reg, id, pair, credential) ==>
              var bound := reg.(rows := reg.rows[id := BoundRow(reg.rows[id], pair)]);
              && bound.rows[id].backend == Some(pair.backend) && bound.rows[id].sid == Some(pair.sessionId)
              && !CanBind(bound, id, again, credential)
  {
    AvailableIff(reg, id, pair);
  }

  predicate CanBind(reg: Registry, id: string, pair: Snapshot.Pair, credential: Option<string>) {
    && id in reg.rows
    && var row := reg.rows[id];
       && row.isLocal
       && row.sid.None?
       && (row.backend.None? || row.backend.value == pair.backend)
       && row.credential.Some?
       && credential == row.credential
       && Available(reg, id, pair)
  }

  // ----- adoption -----

  datatype Candidate = Candidate(
    id: string,
    backend: Option<string>,
    sid: Option<string>,
    credential: Option<string>,
    incarnation: nat)

  predicate Unbound(row: Row, dir: string) {
    row.isLocal && row.projectDir == Some(dir) && Blank(row)
  }

  function Unbounds(reg: Registry, dir: string): set<string> {
    set id | id in reg.rows && Unbound(reg.rows[id], dir)
  }

  function CandidateOf(id: string, row: Row): Candidate {
    Candidate(id, row.backend, row.sid, row.credential, row.incarnation)
  }

  // The candidate is the row it names, as it is, and the only local row of the
  // directory with neither half of a pair and no launch pending.
  ghost predicate OnlyBlankIn(rows: map<string, Row>, c: Candidate, dir: string) {
    && c.id in rows
    && c.backend == None && c.sid == None && c.credential == None && c.incarnation == rows[c.id].incarnation
    && (forall id :: id in rows ==>
          (id == c.id <==>
             && rows[id].isLocal && rows[id].projectDir == Some(dir)
             && rows[id].backend.None? && rows[id].sid.None? && rows[id].credential.None?))
  }

  // One unbound row in the directory, or none is chosen.
  function Discover(reg: Registry, dir: string): (found: Option<Candidate>)
    ensures found.Some? <==> exists id :: Unbounds(reg, dir) == {id}
    ensures found.Some? ==>
              && Unbounds(reg, dir) == {found.value.id}
              && found.value.id in reg.rows
              && found.value == CandidateOf(found.value.id, reg.rows[found.value.id])
  {
    var ids := Unbounds(reg, dir);
    if exists id :: id in ids && ids == {id} then
      var id :| id in ids && ids == {id};
      Some(CandidateOf(id, reg.rows[id]))
    else None
  }

  lemma DiscoverFindsTheOnlyBlank(reg: Registry, dir: string, c: Candidate)
    ensures Discover(reg, dir) == Some(c) <==> OnlyBlankIn(reg.rows, c, dir)
  {
    if OnlyBlankIn(reg.rows, c, dir) {
      assert Unbounds(reg, dir) == {c.id};
    }
    if Discover(reg, dir) == Some(c) {
      forall id | id in reg.rows
        ensures id in Unbounds(reg, dir) <==> id == c.id
      {
      }
    }
  }

  // Whether the row still is the one discovery saw.
  predicate StillCandidate(reg: Registry, c: Candidate) {
    c.id in reg.rows && reg.rows[c.id].isLocal && CandidateOf(c.id, reg.rows[c.id]) == c
  }

  function OpenCode(sid: string): Snapshot.Pair {
    Snapshot.Pair("opencode", sid)
  }

  predicate Adopts(reg: Registry, c: Candidate, sid: string) {
    StillCandidate(reg, c) && !Complete(reg.rows[c.id]) && Available(reg, c.id, OpenCode(sid))
  }

  function CommitAdoption(reg: Registry, c: Candidate, sid: string): Registry {
    if Adopts(reg, c, sid)
    then reg.(rows := reg.rows[c.id := AdoptedRow(reg.rows[c.id], OpenCode(sid), c.credential)])
    else reg
  }

  // Adoption compares with what discovery saw: it changes the registry exactly
  // when that row is still there, blank and of the same incarnation, and the
  // backend session is available to it; and then it fills in the pair alone.
  lemma AdoptionComparesAndCommits(seen: Registry, dir: string, reg: Registry, sid: string)
    requires Discover(seen, dir).Some?
    ensures var c := Discover(seen, dir).value;
            var after := CommitAdoption(reg, c, sid);
            && (after != reg <==>
                  && c.id in reg.rows
                  && reg.rows[c.id].isLocal
                  && reg.rows[c.id].incarnation == seen.rows[c.id].incarnation
                  && Blank(reg.rows[c.id])
                  && Available(reg, c.id, OpenCode(sid)))
            && (after != reg ==>
                  after.rows == reg.rows[c.id := reg.rows[c.id].(backend := Some("opencode"), sid := Some(sid))])
            && after.dormant == reg.dormant && after.leases == reg.leases && after.mark == reg.mark
  {
    var c := Discover(seen, dir).value;
    assert c.id in Unbounds(seen, dir);
    if Adopts(reg, c, sid) {
      assert CommitAdoption(reg, c, sid).rows[c.id].sid == Some(sid);
    }
  }

  // With no candidate, or more than one, nothing is chosen.
  lemma AmbiguityIsRefused(reg: Registry, dir: string)
    ensures Discover(reg, dir).Some? <==> |Unbounds(reg, dir)| == 1
  {
    var ids := Unbounds(reg, dir);
    if |ids| == 1 {
      var id :| id in ids;
      assert |ids - {id}| == 0;
      assert ids == {id};
    }
  }

  // ----- one owner for each backend session -----

  // No two local rows hold one pair, and no local row holds a dormant one.
  ghost predicate Exclusive(reg: Registry) {
    forall id, pair :: id in reg.rows && reg.rows[id].isLocal && HoldsPair(reg.rows[id], pair) ==>
                         !HeldElsewhere(reg, id, pair)
  }

  // Changing a row keeps exclusivity exactly when what the new row holds, if
  // anything, is free.
  lemma RowChangeIsExclusiveIff(reg: Registry, id: string, row: Row)
    requires Exclusive(reg)
    ensures Exclusive(reg.(rows := reg.rows[id := row])) <==> Free(reg, id, row)
  {
    var after := reg.(rows := reg.rows[id := row]);
    if Free(reg, id, row) {
      forall a, pair | a in after.rows && after.rows[a].isLocal && HoldsPair(after.rows[a], pair)
        ensures !HeldElsewhere(after, a, pair)
      {
        if a == id {
          OthersDecide(reg, after, id, pair);
        } else {
          assert !HeldElsewhere(reg, a, pair);
          HeldBack(reg, id, a, row, pair);
        }
      }
    } else {
      var pair := Snapshot.Pair(row.backend.value, row.sid.value);
      OthersDecide(reg, after, id, pair);
      assert id in after.rows && HoldsPair(after.rows[id], pair);
    }
  }

  // If the changed row takes what another row holds, that row holds elsewhere
  // what the changed one has.
  lemma HeldBack(reg: Registry, id: string, a: string, row: Row, pair: Snapshot.Pair)
    requires a != id && a in reg.rows && reg.rows[a].isLocal && HoldsPair(reg.rows[a], pair)
    requires !HeldElsewhere(reg, a, pair)
    requires row.isLocal && HoldsPair(row, pair) ==> !HeldElsewhere(reg, id, pair)
    ensures !HeldElsewhere(reg.(rows := reg.rows[id := row]), a, pair)
  {
    assert HeldByRow(reg, id, pair);
  }

  // Who else holds a pair does not depend on the row itself.
  lemma OthersDecide(reg: Registry, after: Registry, id: string, pair: Snapshot.Pair)
    requires after.dormant == reg.dormant
    requires forall other :: other != id ==> (other in after.rows <==> other in reg.rows)
    requires forall other :: other != id && other in reg.rows ==> after.rows[other] == reg.rows[other]
    ensures HeldElsewhere(after, id, pair) <==> HeldElsewhere(reg, id, pair)
  {
  }

  // ----- in place -----

  // When each report is made. A failed restart is told by its reservation, in
  // either phase; any other first by the generation, which is the reserved one
  // after exactly one launch, then by a completed pair, then by a reservation
  // that nothing has changed.
  predicate Reports(row: Row, r: Reservation, outcome: RestartOutcome, result: RepairOutcome) {
    var completed := row.reservation.None? && row.backend.Some? && row.sid.Some?;
    var failed, current := outcome.RestartFailure?, row.generation == r.generation;
    var held := row.reservation.Some? && row.reservation.value.incarnation == r.incarnation
                && row.reservation.value.generation == r.generation;
    && (result.RestartFailed? <==> failed && held)
    && (result.Bound? <==> completed && (failed || current))
    && (result.SessionStartPending? <==> !failed && current && row.reservation == Some(r) && row.credential.Some?)
    && (result.Inconclusive? <==> !failed && current && row.reservation == Some(r) && row.credential.None?)
  }

  class RegistryState {
    var rows: map<string, Row>
    var dormant: map<string, Row>
    const leases: map<string, Lease>
    const mark: nat

    ghost function State(): Registry
      reads this
    {
      Registry(rows, dormant, leases, mark)
    }

    constructor (reg: Registry)
      ensures State() == reg
    {
      rows, dormant, leases, mark := reg.rows, reg.dormant, reg.leases, reg.mark;
    }

    // One repair at a time: a reservation is made where there was none, on a
    // local row that lacks half of its pair.
    method ReserveRepair(id: string, backend: string) returns (r: Result<Reservation, Refusal>)
      modifies this`rows
      ensures r.Err? <==> RefuseRepair(old(State()), id, backend).Some?
      ensures r.Err? ==> State() == old(State()) && Some(r.error) == RefuseRepair(old(State()), id, backend)
      ensures r.Ok? ==> id in old(rows) && r.value == FreshReservation(old(rows)[id])
      ensures r.Ok? ==>
                && old(rows)[id].reservation.None?
                && State() == old(State()).(rows := old(rows)[id := ReservedRow(old(rows)[id])])
    {
      if id !in rows {
        return Err(TargetNotFound);
      }
      var row := rows[id];
      if !row.isLocal {
        return Err(TargetNotLocal);
      }
      if row.backend.Some? == row.sid.Some? {
        return Err(NotIncompleteLegacy);
      }
      if row.backend.Some? && row.backend.value != backend {
        return Err(BackendMismatch);
      }
      if row.reservation.Some? {
        return Err(RepairInProgress);
      }
      var reservation := Reservation(row.incarnation, Saturating(row.generation), PreStage);
      rows := rows[id := row.(reservation := Some(reservation))];
      return Ok(reservation);
    }

    method TerminalizeFailedRepair(id: string, expected: Reservation) returns (matched: bool)
      requires id in rows
      modifies this`rows
      ensures matched <==> Holds(old(rows)[id], expected)
      ensures State() == old(State()).(rows := old(rows)[id := Released(old(rows)[id], expected)])
    {
      var row := rows[id];
      matched := row.reservation.Some?
                 && row.reservation.value.incarnation == expected.incarnation
                 && row.reservation.value.generation == expected.generation;
      if matched {
        rows := rows[id := row.(reservation := None)];
      }
      assert !matched ==> rows == rows[id := row];
    }

    method ClassifyRepair(id: string, r: Reservation, outcome: RestartOutcome) returns (result: RepairOutcome)
      modifies this`rows
      ensures id !in old(rows) ==> result == Superseded && State() == old(State())
      ensures id in old(rows) ==> result == Classified(old(rows)[id], r, outcome)
      ensures id in old(rows) ==> Reports(old(rows)[id], r, outcome, result)
      ensures id in old(rows) && outcome.RestartFailure? ==>
                State() == old(State()).(rows := old(rows)[id := Released(old(rows)[id], r)])
      ensures !outcome.RestartFailure? ==> State() == old(State())
    {
      if id !in rows {
        return Superseded;
      }
      if outcome.RestartFailure? {
        var matched := TerminalizeFailedRepair(id, r);
        if matched {
          return RestartFailed;
        }
        if rows[id].reservation.None? && rows[id].backend.Some? && rows[id].sid.Some? {
          return Bound;
        }
        return Superseded;
      }
      var row := rows[id];
      if row.generation != r.generation {
        return Superseded;
      }
      if row.reservation.None? && row.backend.Some? && row.sid.Some? {
        return Bound;
      }
      if row.reservation != Some(r) {
        return Superseded;
      }
      return if row.credential.Some? then SessionStartPending else Inconclusive;
    }

    // Collects the unbound rows of a directory in whatever order the map has
    // them; one is chosen, none or several are refused.
    method DiscoverCandidate(dir: string) returns (found: Option<Candidate>)
      ensures found == Discover(State(), dir)
      ensures forall c :: found == Some(c) <==> OnlyBlankIn(rows, c, dir)
    {
      var candidates: seq<Candidate> := [];
      var todo := rows.Keys;
      ghost var seen: set<string> := {};
      while todo != {}
        invariant todo <= rows.Keys
        invariant seen == Unbounds(State(), dir) - todo
        invariant |candidates| == |seen|
        invariant forall i :: 0 <= i < |candidates| ==>
                    candidates[i].id in seen && candidates[i] == CandidateOf(candidates[i].id, rows[candidates[i].id])
      {
        var id :| id in todo;
        if rows[id].isLocal && rows[id].projectDir == Some(dir)
           && rows[id].backend.None? && rows[id].sid.None? && rows[id].credential.None? {
          candidates := candidates + [CandidateOf(id, rows[id])];
          seen := seen + {id};
        }
        todo := todo - {id};
      }
      AmbiguityIsRefused(State(), dir);
      forall c
        ensures Discover(State(), dir) == Some(c) <==> OnlyBlankIn(rows, c, dir)
      {
        DiscoverFindsTheOnlyBlank(State(), dir, c);
      }
      if |candidates| == 1 {
        found := Some(candidates[0]);
      } else {
        found := None;
      }
    }

    method CommitAdoptionIfUnchanged(c: Candidate, sid: string)
      modifies this`rows
      ensures State() == CommitAdoption(old(State()), c, sid)
      ensures rows != old(rows) <==>
                && c.id in old(rows) && old(rows)[c.id].isLocal
                && old(rows)[c.id].backend == c.backend && old(rows)[c.id].sid == c.sid
                && old(rows)[c.id].credential == c.credential && old(rows)[c.id].incarnation == c.incarnation
                && (c.backend.None? || c.sid.None?)
                && Unobstructed(old(State()), c.id, OpenCode(sid))
      ensures rows != old(rows) ==>
                rows == old(rows)[c.id := old(rows)[c.id].(backend := Some("opencode"), sid := Some(sid),
                                                           credential := None)]
    {
      if c.id in rows {
        AvailableIff(State(), c.id, OpenCode(sid));
      }
      if c.id !in rows || !rows[c.id].isLocal || CandidateOf(c.id, rows[c.id]) != c {
        return;
      }
      var row := rows[c.id];
      if c.id in leases && leases[c.id].phase.Stopping? {
        return;
      }
      if exists l :: l in leases && LeaseBlocks(leases[l], l, c.id, row, OpenCode(sid)) {
        return;
      }
      if row.backend.Some? && row.sid.Some? {
        return;
      }
      if (exists other :: other in rows && other != c.id && rows[other].isLocal
                         && HoldsPair(rows[other], OpenCode(sid)))
         || (exists d :: d in dormant && HoldsPair(dormant[d], OpenCode(sid))) {
        return;
      }
      rows := rows[c.id := AdoptedRow(row, OpenCode(sid), c.credential)];
    }
  }
}
