// What a running daemon writes to disk, and when it could start again from it:
// the snapshot of a registry against the registry, and which steps leave a
// registry whose snapshot the validator accepts.

module Durable {
  import opened Options
  import opened SessionRow
  import opened BackendBinding
  import opened Lifecycle
  import S = Snapshot
  import L = LoadSave
  import Adoption

  // ----- the snapshot of a registry -----

  function MetaOf(row: Row, segment: Option<int>): S.Meta {
    S.Meta(row.incarnation, row.backend, row.sid, row.projectDir, row.canonicalProject, segment)
  }

  // Open accounting segments are not in the registry, and may be anything.
  predicate MetaMatches(row: Row, meta: S.Meta) {
    meta == MetaOf(row, meta.segmentStartedAt)
  }

  // Who a lease's backend session belongs to: what a restart has staged, or the
  // owner of a stop.
  function PairOwner(lease: Lease): nat {
    if lease.target.Some? then lease.target.value else lease.owner
  }

  predicate SamePhase(phase: LeasePhase, written: S.Phase) {
    match phase
    case Starting => written.Starting?
    case Restarting => written.Restarting?
    case Stopping => written.Stopping?
  }

  predicate PairMatches(id: string, lease: Lease, written: S.Lease) {
    if lease.pair.Some? then
      && written.backend == Some(lease.pair.value.backend)
      && written.backendSessionId == Some(lease.pair.value.sessionId)
      && written.backendSessionOwner == Some(S.Owner(id, PairOwner(lease)))
    else S.NoBackendClaim(written)
  }

  predicate PreviousMatches(id: string, lease: Lease, written: S.Lease) {
    if lease.previous.Some? then
      && written.previous.Some?
      && written.previous.value.id == id
      && written.previous.value.isLocal == lease.previous.value.isLocal
      && MetaMatches(lease.previous.value, written.previous.value.meta)
    else written.previous.None?
  }

  function OwnerOf(id: string, n: Option<nat>): Option<S.Owner> {
    if n.Some? then Some(S.Owner(id, n.value)) else None
  }

  predicate LeaseMatches(id: string, lease: Lease, written: S.Lease) {
    && written.owner == S.Owner(id, lease.owner)
    && SamePhase(lease.phase, written.phase)
    && PairMatches(id, lease, written)
    && written.target == OwnerOf(id, lease.target)
    && PreviousMatches(id, lease, written)
    && written.projectDir == lease.project
    && (lease.project.Some? <==> written.projectDirOwner.Some?)
    && (written.projectDirOwner.Some? ==>
          && written.projectDirOwner.value.sessionId == id
          && OwnsLease(lease, written.projectDirOwner.value.incarnation))
    && (written.cleanupOnAbandon ==> lease.project.Some?)
    && written.inertPaneOwner == OwnerOf(id, lease.paneOwner)
  }

  predicate DormantMatches(id: string, row: Row, written: S.Dormant) {
    && written.id == id
    && written.priorOwner == S.Owner(id, row.incarnation)
    && written.meta == MetaOf(row, None)
    && Some(written.canonicalProject) == row.canonicalProject
  }

  predicate RowMatches(reg: Registry, written: S.Row) {
    IsLocal(reg, written.id) && MetaMatches(reg.rows[written.id], written.meta)
  }

  ghost predicate Lists(sessions: seq<S.Row>, id: string) {
    exists i :: 0 <= i < |sessions| && sessions[i].id == id
  }

  ghost predicate RowsMatch(reg: Registry, sessions: seq<S.Row>) {
    && S.DistinctRows(sessions)
    && (forall i :: 0 <= i < |sessions| ==> RowMatches(reg, sessions[i]))
    && (forall id :: IsLocal(reg, id) ==> Lists(sessions, id))
  }

  // Local rows in any order, dormant rows and leases under their ids, and the
  // least mark that nothing recorded exceeds.
  ghost predicate WrittenAs(reg: Registry, s: S.State) {
    && s.version == S.VERSION
    && RowsMatch(reg, s.sessions)
    && s.dormant.Keys == reg.dormant.Keys
    && (forall d :: d in reg.dormant ==> DormantMatches(d, reg.dormant[d], s.dormant[d]))
    && s.leases.Keys == reg.leases.Keys
    && (forall l :: l in reg.leases ==> LeaseMatches(l, reg.leases[l], s.leases[l]))
    && s == L.Normalized(s.(highWater := reg.mark))
  }

  // ----- the numbers it records -----

  function LeaseNumbers(lease: Lease): set<nat> {
    {lease.owner}
    + (if lease.target.Some? then {lease.target.value} else {})
    + (if lease.previous.Some? then {lease.previous.value.incarnation} else {})
  }

  function RowNumbers(reg: Registry): set<nat> {
    set id | id in reg.rows && reg.rows[id].isLocal :: reg.rows[id].incarnation
  }

  function DormantNumbers(reg: Registry): set<nat> {
    set d | d in reg.dormant :: reg.dormant[d].incarnation
  }

  function AllLeaseNumbers(reg: Registry): set<nat> {
    set l, n | l in reg.leases && n in LeaseNumbers(reg.leases[l]) :: n
  }

  // Every incarnation a snapshot of the registry records.
  function Numbers(reg: Registry): set<nat> {
    RowNumbers(reg) + DormantNumbers(reg) + AllLeaseNumbers(reg)
  }

  // What a save keeps of the registry: rows of other origins are not written,
  // and the mark is raised to whatever is recorded.
  function Written(reg: Registry): Registry {
    reg.(rows := map id | id in reg.rows && reg.rows[id].isLocal :: reg.rows[id],
         mark := L.Max(reg.mark, L.Greatest(Numbers(reg))))
  }

  lemma WrittenNumbers(reg: Registry)
    ensures Numbers(Written(reg)) == Numbers(reg)
  {
    var kept := Written(reg);
    forall n: nat
      ensures n in RowNumbers(kept) <==> n in RowNumbers(reg)
    {
      if n in RowNumbers(reg) {
        var id :| id in reg.rows && reg.rows[id].isLocal && reg.rows[id].incarnation == n;
        assert id in kept.rows && kept.rows[id].incarnation == n;
      }
    }
    assert DormantNumbers(kept) == DormantNumbers(reg);
    assert AllLeaseNumbers(kept) == AllLeaseNumbers(reg);
  }

  lemma RowNumbersAgree(reg: Registry, s: S.State, n: nat)
    requires WrittenAs(reg, s)
    ensures L.InLive(s, n) <==> n in RowNumbers(reg)
  {
    if n in RowNumbers(reg) {
      var id :| id in reg.rows && reg.rows[id].isLocal && reg.rows[id].incarnation == n;
      assert Lists(s.sessions, id);
      var i :| 0 <= i < |s.sessions| && s.sessions[i].id == id;
      assert RowMatches(reg, s.sessions[i]);
    }
    if L.InLive(s, n) {
      var i :| 0 <= i < |s.sessions| && s.sessions[i].meta.incarnation == n;
      assert RowMatches(reg, s.sessions[i]);
    }
  }

  lemma DormantNumbersAgree(reg: Registry, s: S.State, n: nat)
    requires WrittenAs(reg, s)
    ensures L.InDormant(s, n) <==> n in DormantNumbers(reg)
  {
    assert forall d :: d in s.dormant.Keys <==> d in reg.dormant.Keys;
    assert forall d :: d in reg.dormant ==> DormantMatches(d, reg.dormant[d], s.dormant[d]);
  }

  lemma LeaseNumbersMatch(reg: Registry, id: string, written: S.Lease)
    requires id in reg.leases && LeaseOk(reg, id) && LeaseMatches(id, reg.leases[id], written)
    ensures L.LeaseIncarnations(written) == LeaseNumbers(reg.leases[id])
  {
  }

  lemma LeaseNumbersAgree(reg: Registry, s: S.State, n: nat)
    requires Shaped(reg) && WrittenAs(reg, s)
    ensures L.InLeases(s, n) <==> n in AllLeaseNumbers(reg)
  {
    forall l | l in reg.leases
      ensures l in s.leases && L.LeaseIncarnations(s.leases[l]) == LeaseNumbers(reg.leases[l])
    {
      assert l in s.leases.Keys && LeaseOk(reg, l) && LeaseMatches(l, reg.leases[l], s.leases[l]);
      LeaseNumbersMatch(reg, l, s.leases[l]);
    }
    assert forall l :: l in s.leases.Keys <==> l in reg.leases.Keys;
  }

  // The snapshot records the registry's numbers, under the mark of Written.
  lemma NumbersAgree(reg: Registry, s: S.State)
    requires Shaped(reg) && WrittenAs(reg, s)
    ensures forall n: nat :: L.Recorded(s, n) <==> n in Numbers(reg)
    ensures s.highWater == Written(reg).mark
  {
    forall n: nat
      ensures L.Recorded(s, n) <==> n in Numbers(reg)
    {
      RowNumbersAgree(reg, s, n);
      DormantNumbersAgree(reg, s, n);
      LeaseNumbersAgree(reg, s, n);
    }
    var raw, least := s.(highWater := reg.mark), Written(reg).mark;
    forall n: nat
      ensures L.Recorded(raw, n) <==> L.Recorded(s, n)
    {
      assert L.InLive(raw, n) <==> L.InLive(s, n);
      assert L.InDormant(raw, n) <==> L.InDormant(s, n);
      assert L.InLeases(raw, n) <==> L.InLeases(s, n);
    }
    L.NormalizedIsLeastBound(raw, least);
    assert L.Bounds(raw, s.highWater) && L.Bounds(raw, least);
    assert forall n :: n in Numbers(reg) ==> n <= s.highWater;
  }

  // What is written stands for the same file.
  lemma WrittenIsTheSame(reg: Registry, s: S.State)
    requires Shaped(reg) && WrittenAs(reg, s)
    ensures WrittenAs(Written(reg), s)
  {
    NumbersAgree(reg, s);
    L.NormalizeTwice(s.(highWater := reg.mark));
    var kept := Written(reg);
    assert s.(highWater := kept.mark) == s;
    forall i | 0 <= i < |s.sessions|
      ensures RowMatches(kept, s.sessions[i])
    {
      assert RowMatches(reg, s.sessions[i]);
    }
    assert forall id :: IsLocal(kept, id) ==> IsLocal(reg, id);
  }

  // ----- who claims a backend session -----

  predicate UsablePair(pair: S.Pair) {
    pair.backend != "" && pair.sessionId != ""
  }

  predicate Usable(row: Row) {
    Complete(row) && row.backend.value != "" && row.sid.value != ""
  }

  function PairOf(row: Row): S.Pair
    requires Complete(row)
  {
    S.Pair(row.backend.value, row.sid.value)
  }

  predicate Whole(row: Row) {
    Usable(row) || (row.backend.None? && row.sid.None?)
  }

  predicate ClaimedIn(row: Row, pair: S.Pair, n: nat) {
    UsablePair(pair) && HoldsPair(row, pair) && row.incarnation == n
  }

  predicate ClaimedByRow(reg: Registry, pair: S.Pair, id: string, n: nat) {
    IsLocal(reg, id) && ClaimedIn(reg.rows[id], pair, n)
  }

  predicate ClaimedByDormant(reg: Registry, pair: S.Pair, id: string, n: nat) {
    id in reg.dormant && ClaimedIn(reg.dormant[id], pair, n)
  }

  // By what an operation has recorded, or by the row it would fall back to.
  predicate ClaimedByLease(reg: Registry, pair: S.Pair, id: string, n: nat) {
    && id in reg.leases
    && var lease := reg.leases[id];
       || (lease.pair == Some(pair) && PairOwner(lease) == n)
       || (lease.previous.Some? && ClaimedIn(lease.previous.value, pair, n))
  }

  predicate Claimed(reg: Registry, pair: S.Pair, id: string, n: nat) {
    ClaimedByRow(reg, pair, id, n) || ClaimedByDormant(reg, pair, id, n) || ClaimedByLease(reg, pair, id, n)
  }

  predicate LeaseWhole(lease: Lease) {
    && (lease.pair.Some? ==> UsablePair(lease.pair.value))
    && (lease.previous.Some? ==> Whole(lease.previous.value))
  }

  ghost predicate LeasesWhole(reg: Registry) {
    forall l :: l in reg.leases ==> LeaseWhole(reg.leases[l])
  }

  // Every claim on one backend session is by one incarnation of one session.
  ghost predicate OneClaimant(reg: Registry) {
    forall pair, a, m, b, n :: Claimed(reg, pair, a, m) && Claimed(reg, pair, b, n) ==> a == b && m == n
  }

  ghost predicate Loadable(reg: Registry) {
    LeasesWhole(reg) && OneClaimant(reg)
  }

  // ----- the snapshot claims what the registry claims -----

  lemma RowClaimsAgree(reg: Registry, s: S.State, pair: S.Pair, id: string, n: nat)
    requires WrittenAs(reg, s)
    ensures S.Claim(pair, S.Owner(id, n)) in S.LiveClaims(s.sessions, |s.sessions|) <==> ClaimedByRow(reg, pair, id, n)
  {
    if ClaimedByRow(reg, pair, id, n) {
      assert Lists(s.sessions, id);
      var i :| 0 <= i < |s.sessions| && s.sessions[i].id == id;
      assert S.Claim(pair, S.Owner(id, n)) in S.RowClaim(s.sessions[i]);
    }
  }

  lemma DormantClaimsAgree(reg: Registry, s: S.State, pair: S.Pair, id: string, n: nat)
    requires WrittenAs(reg, s)
    ensures S.Claim(pair, S.Owner(id, n)) in S.DormantClaims(s.dormant, s.dormant.Keys) <==>
            ClaimedByDormant(reg, pair, id, n)
  {
    if ClaimedByDormant(reg, pair, id, n) {
      assert id in s.dormant.Keys && DormantMatches(id, reg.dormant[id], s.dormant[id]);
      assert S.Claim(pair, S.Owner(id, n)) in S.DormantClaim(s.dormant[id]);
    }
    forall k | k in s.dormant && S.Claim(pair, S.Owner(id, n)) in S.DormantClaim(s.dormant[k])
      ensures k == id && ClaimedByDormant(reg, pair, id, n)
    {
      assert k in s.dormant.Keys && DormantMatches(k, reg.dormant[k], s.dormant[k]);
    }
  }

  lemma OneLeaseClaims(reg: Registry, s: S.State, pair: S.Pair, id: string, n: nat, k: string)
    requires WrittenAs(reg, s) && k in s.leases
    ensures S.Claim(pair, S.Owner(id, n)) in S.LeaseClaim(s.leases[k]) + S.PreviousClaim(s.leases[k]) <==>
            k == id && ClaimedByLease(reg, pair, id, n)
  {
    assert k in s.leases.Keys && LeaseMatches(k, reg.leases[k], s.leases[k]);
  }

  lemma LeaseClaimsAgree(reg: Registry, s: S.State, pair: S.Pair, id: string, n: nat)
    requires WrittenAs(reg, s)
    ensures S.Claim(pair, S.Owner(id, n)) in S.LeaseClaims(s.leases, s.leases.Keys) <==>
            ClaimedByLease(reg, pair, id, n)
  {
    if ClaimedByLease(reg, pair, id, n) {
      assert id in s.leases.Keys;
      OneLeaseClaims(reg, s, pair, id, n, id);
    }
    var claim := S.Claim(pair, S.Owner(id, n));
    forall k | k in s.leases && claim in S.LeaseClaim(s.leases[k]) + S.PreviousClaim(s.leases[k])
      ensures ClaimedByLease(reg, pair, id, n)
    {
      OneLeaseClaims(reg, s, pair, id, n, k);
    }
  }

  lemma ClaimsAgree(reg: Registry, s: S.State, pair: S.Pair, id: string, n: nat)
    requires WrittenAs(reg, s)
    ensures S.Claim(pair, S.Owner(id, n)) in S.AllClaims(s) <==> Claimed(reg, pair, id, n)
  {
    RowClaimsAgree(reg, s, pair, id, n);
    DormantClaimsAgree(reg, s, pair, id, n);
    LeaseClaimsAgree(reg, s, pair, id, n);
  }

  lemma OneOwnerAgrees(reg: Registry, s: S.State)
    requires WrittenAs(reg, s)
    ensures S.OneOwner(S.AllClaims(s)) <==> OneClaimant(reg)
  {
    if S.OneOwner(S.AllClaims(s)) {
      forall pair, a, m, b, n | Claimed(reg, pair, a, m) && Claimed(reg, pair, b, n)
        ensures a == b && m == n
      {
        ClaimsAgree(reg, s, pair, a, m);
        ClaimsAgree(reg, s, pair, b, n);
      }
    }
    if OneClaimant(reg) {
      forall x, y | x in S.AllClaims(s) && y in S.AllClaims(s) && x.pair == y.pair
        ensures x.owner == y.owner
      {
        ClaimsAgree(reg, s, x.pair, x.owner.sessionId, x.owner.incarnation);
        ClaimsAgree(reg, s, y.pair, y.owner.sessionId, y.owner.incarnation);
      }
    }
  }

  lemma LeaseIsCoherent(reg: Registry, id: string, written: S.Lease)
    requires id in reg.leases && LeaseOk(reg, id) && LeaseMatches(id, reg.leases[id], written)
    ensures S.Coherent(id, written)
  {
  }

  lemma LeaseIsWhole(reg: Registry, id: string, written: S.Lease)
    requires id in reg.leases && LeaseMatches(id, reg.leases[id], written)
    ensures S.LeasePairsWhole(written) <==> LeaseWhole(reg.leases[id])
  {
  }

  lemma LeaseAgrees(reg: Registry, s: S.State, k: string)
    requires Shaped(reg) && WrittenAs(reg, s) && k in reg.leases
    ensures S.Coherent(k, s.leases[k])
    ensures S.LeasePairsWhole(s.leases[k]) <==> LeaseWhole(reg.leases[k])
  {
    assert LeaseOk(reg, k) && LeaseMatches(k, reg.leases[k], s.leases[k]);
    LeaseIsCoherent(reg, k, s.leases[k]);
    LeaseIsWhole(reg, k, s.leases[k]);
  }

  lemma DormantAgrees(reg: Registry, s: S.State, d: string)
    requires Shaped(reg) && WrittenAs(reg, s) && d in reg.dormant
    ensures S.DormantConsistent(d, s.dormant[d])
  {
    assert DormantMatches(d, reg.dormant[d], s.dormant[d]);
  }

  // Of a registry in shape, the validator accepts the snapshot exactly when no
  // lease has half a pair and every backend session has one claimant.
  lemma AcceptableIffLoadable(reg: Registry, s: S.State)
    requires Shaped(reg) && WrittenAs(reg, s)
    ensures S.Acceptable(s) <==> Loadable(reg)
  {
    OneOwnerAgrees(reg, s);
    forall k | k in reg.leases
      ensures S.Coherent(k, s.leases[k]) && (S.LeasePairsWhole(s.leases[k]) <==> LeaseWhole(reg.leases[k]))
    {
      LeaseAgrees(reg, s, k);
    }
    forall d | d in reg.dormant
      ensures S.DormantConsistent(d, s.dormant[d])
    {
      DormantAgrees(reg, s, d);
    }
    assert forall k :: k in s.leases <==> k in s.leases.Keys;
    assert forall k :: k in s.dormant <==> k in s.dormant.Keys;
  }

  // And then, only then, a daemon can start from the file, and starts from
  // that very snapshot.
  lemma RestartsIffLoadable(reg: Registry, s: S.State, world: L.World)
    requires Shaped(reg) && WrittenAs(reg, s)
    ensures L.Loaded(world, L.Save(s)) == Some(s) <==> Loadable(reg)
    ensures L.Loaded(world, L.Save(s)).Some? <==> Loadable(reg)
  {
    AcceptableIffLoadable(reg, s);
    L.NormalizeTwice(s.(highWater := reg.mark));
  }

  // Every registry in shape can be written.
  lemma SnapshotExists(reg: Registry) returns (s: S.State)
    requires Shaped(reg)
    ensures WrittenAs(reg, s)
  {
    var locals := set id | id in reg.rows && reg.rows[id].isLocal;
    var sessions := WriteRows(reg, locals);
    assert forall id :: IsLocal(reg, id) ==> id in locals;
    var dormant := map d | d in reg.dormant :: WrittenDormant(d, reg.dormant[d]);
    var leases := map l | l in reg.leases :: WrittenLease(l, reg.leases[l]);
    assert forall d :: d in reg.dormant ==> DormantMatches(d, reg.dormant[d], dormant[d]);
    s := L.Normalized(S.State(S.VERSION, sessions, dormant, reg.mark, leases, map[]));
  }

  lemma {:induction false} WriteRows(reg: Registry, ids: set<string>) returns (rows: seq<S.Row>)
    requires forall id :: id in ids ==> IsLocal(reg, id)
    ensures S.DistinctRows(rows)
    ensures forall i :: 0 <= i < |rows| ==> rows[i].id in ids && RowMatches(reg, rows[i])
    ensures forall id :: id in ids ==> Lists(rows, id)
  {
    if ids == {} {
      rows := [];
    } else {
      var id :| id in ids;
      var rest := WriteRows(reg, ids - {id});
      rows := [S.Row(id, MetaOf(reg.rows[id], None))] + rest;
      forall other | other in ids
        ensures Lists(rows, other)
      {
        if other == id {
          assert rows[0].id == id;
        } else {
          assert Lists(rest, other);
          var i :| 0 <= i < |rest| && rest[i].id == other;
          assert rows[i + 1].id == other;
        }
      }
    }
  }

  function WrittenDormant(id: string, row: Row): S.Dormant {
    S.Dormant(id, S.Owner(id, row.incarnation), MetaOf(row, None),
              if row.canonicalProject.Some? then row.canonicalProject.value else "")
  }

  function WrittenLease(id: string, lease: Lease): (written: S.Lease)
    ensures LeaseMatches(id, lease, written)
  {
    S.Lease(
      S.Owner(id, lease.owner),
      match lease.phase case Starting => S.Starting case Restarting => S.Restarting case Stopping => S.Stopping,
      if lease.pair.Some? then Some(lease.pair.value.backend) else None,
      if lease.pair.Some? then Some(lease.pair.value.sessionId) else None,
      if lease.pair.Some? then Some(S.Owner(id, PairOwner(lease))) else None,
      OwnerOf(id, lease.target),
      if lease.previous.Some?
      then Some(S.Previous(id, lease.previous.value.isLocal, MetaOf(lease.previous.value, None))) else None,
      lease.project,
      if lease.project.Some? then Some(S.Owner(id, lease.owner)) else None,
      false,
      OwnerOf(id, lease.paneOwner))
  }

  // ----- what a step must respect -----

  // No operation claims the pair for another incarnation, nor would fall back
  // to one that holds it.
  predicate LeasesAllow(reg: Registry, pair: S.Pair, id: string, n: nat) {
    forall l :: l in reg.leases ==>
      && (reg.leases[l].pair == Some(pair) ==> l == id && PairOwner(reg.leases[l]) == n)
      && (reg.leases[l].previous.Some? && HoldsPair(reg.leases[l].previous.value, pair) ==>
            l == id && reg.leases[l].previous.value.incarnation == n)
  }

  predicate LeasesAllowRow(reg: Registry, id: string, row: Row) {
    row.isLocal && Usable(row) ==> LeasesAllow(reg, PairOf(row), id, row.incarnation)
  }

  predicate RowFits(reg: Registry, id: string, row: Row) {
    row.isLocal && Usable(row) ==>
      !HeldElsewhere(reg, id, PairOf(row)) && LeasesAllow(reg, PairOf(row), id, row.incarnation)
  }

  // A staged restart falls back to a whole pair, and does not resume what that
  // is; what it resumes instead is claimed by nobody else.
  predicate StagesCleanly(reg: Registry, id: string, launch: Launch)
    requires id in reg.rows
  {
    var row, next := reg.rows[id], LaunchedRow(reg.rows[id], launch, reg.mark + 1);
    Whole(row) && (Usable(next) ==> !HoldsPair(row, PairOf(next))) && RowFits(reg, id, next)
  }

  // A session about to be recorded for a restart is claimed by nothing else.
  predicate PairFits(reg: Registry, pair: S.Pair, id: string, n: nat) {
    && UsablePair(pair)
    && !HeldByRow(reg, id, pair)
    && (forall d :: d in reg.dormant && HoldsPair(reg.dormant[d], pair) ==> d == id && reg.dormant[d].incarnation == n)
    && (IsLocal(reg, id) && HoldsPair(reg.rows[id], pair) ==> reg.rows[id].incarnation == n)
    && (forall l :: l in reg.leases ==>
          && (reg.leases[l].pair == Some(pair) ==> l == id)
          && (reg.leases[l].previous.Some? ==> !HoldsPair(reg.leases[l].previous.value, pair)))
  }

  predicate Fits(reg: Registry, step: Step)
    requires Enabled(reg, step)
  {
    match step
    case CommitStart(id, row) => LeasesAllowRow(reg, id, row)
    case Register(id, row) => LeasesAllowRow(reg, id, row)
    case Recover(id, row) => LeasesAllowRow(reg, id, row)
    case ClaimStop(id) => Complete(reg.rows[id]) ==> Usable(reg.rows[id])
    case RecordBackend(id, pair) => PairFits(reg, pair, id, PairOwner(reg.leases[id]))
    case Stage(id, _, launch) => launch.leased ==> StagesCleanly(reg, id, launch)
    case Bind(id, pair, _) => LeasesAllowRow(reg, id, BoundRow(reg.rows[id], pair))
    case RecoverIdentity(id, pair) => LeasesAllowRow(reg, id, PairedRow(reg.rows[id], pair))
    case Rebind(id, pair) => LeasesAllowRow(reg, id, PairedRow(reg.rows[id], pair))
    case Commit(c, sid) => Adopts(reg, c, sid) ==> LeasesAllowRow(reg, c.id, Next(reg, step).rows[c.id])
    case Finalize(id, meta) => RowFits(reg, id, FinalizedRow(reg.rows[id], meta))
    case Announce(id, _) => Captures(reg, step) ==> RowFits(reg, id, WireRow(reg.rows[id], step.wire.value))
    case _ => true
  }

  // ----- which steps leave a loadable registry -----

  lemma FewerClaims(a: Registry, b: Registry)
    requires Loadable(a)
    requires forall pair, id, n :: Claimed(b, pair, id, n) ==> Claimed(a, pair, id, n)
    requires forall l :: l in b.leases ==> LeaseWhole(b.leases[l])
    ensures Loadable(b)
  {
  }

  lemma ClaimsAfterWrite(reg: Registry, id: string, row: Row, pair: S.Pair, other: string, n: nat)
    ensures var after := reg.(rows := reg.rows[id := row]);
            Claimed(after, pair, other, n) <==>
            || (other == id && row.isLocal && ClaimedIn(row, pair, n))
            || (other != id && ClaimedByRow(reg, pair, other, n))
            || ClaimedByDormant(reg, pair, other, n)
            || ClaimedByLease(reg, pair, other, n)
  {
  }

  // Replacing a row keeps a registry loadable exactly when what the new row
  // holds is claimed by nobody else.
  lemma WriteIsLoadableIff(reg: Registry, id: string, row: Row)
    requires Loadable(reg) && id !in reg.dormant
    ensures Loadable(reg.(rows := reg.rows[id := row])) <==> RowFits(reg, id, row)
  {
    if RowFits(reg, id, row) {
      WriteFits(reg, id, row);
    } else {
      WriteClashes(reg, id, row);
    }
  }

  lemma NobodyElse(reg: Registry, id: string, row: Row, pair: S.Pair, other: string, n: nat)
    requires id !in reg.dormant && RowFits(reg, id, row) && row.isLocal && HoldsPair(row, pair) && UsablePair(pair)
    requires Claimed(reg.(rows := reg.rows[id := row]), pair, other, n)
    ensures other == id && n == row.incarnation
  {
    ClaimsAfterWrite(reg, id, row, pair, other, n);
    assert pair == PairOf(row) && !HeldElsewhere(reg, id, pair);
    assert !ClaimedByDormant(reg, pair, other, n);
    assert other != id ==> !ClaimedByRow(reg, pair, other, n);
  }

  lemma WriteFits(reg: Registry, id: string, row: Row)
    requires Loadable(reg) && id !in reg.dormant && RowFits(reg, id, row)
    ensures Loadable(reg.(rows := reg.rows[id := row]))
  {
    var after := reg.(rows := reg.rows[id := row]);
    forall pair, a, m, b, n | Claimed(after, pair, a, m) && Claimed(after, pair, b, n)
      ensures a == b && m == n
    {
      if row.isLocal && HoldsPair(row, pair) && UsablePair(pair) {
        NobodyElse(reg, id, row, pair, a, m);
        NobodyElse(reg, id, row, pair, b, n);
      } else {
        ClaimsAfterWrite(reg, id, row, pair, a, m);
        ClaimsAfterWrite(reg, id, row, pair, b, n);
        assert Claimed(reg, pair, a, m) && Claimed(reg, pair, b, n);
      }
    }
  }

  lemma WriteClashes(reg: Registry, id: string, row: Row)
    requires id !in reg.dormant && !RowFits(reg, id, row)
    ensures !OneClaimant(reg.(rows := reg.rows[id := row]))
  {
    var after, pair := reg.(rows := reg.rows[id := row]), PairOf(row);
    assert Claimed(after, pair, id, row.incarnation);
    if HeldByDormant(reg, pair) {
      var d :| d in reg.dormant && HoldsPair(reg.dormant[d], pair);
      assert Claimed(after, pair, d, reg.dormant[d].incarnation);
    } else if HeldByRow(reg, id, pair) {
      var other :| other in reg.rows && other != id && reg.rows[other].isLocal && HoldsPair(reg.rows[other], pair);
      assert Claimed(after, pair, other, reg.rows[other].incarnation);
    } else {
      var l :| l in reg.leases
        && ((reg.leases[l].pair == Some(pair) && !(l == id && PairOwner(reg.leases[l]) == row.incarnation))
            || (reg.leases[l].previous.Some? && HoldsPair(reg.leases[l].previous.value, pair)
                && !(l == id && reg.leases[l].previous.value.incarnation == row.incarnation)));
      if reg.leases[l].pair == Some(pair) && !(l == id && PairOwner(reg.leases[l]) == row.incarnation) {
        assert Claimed(after, pair, l, PairOwner(reg.leases[l]));
      } else {
        assert Claimed(after, pair, l, reg.leases[l].previous.value.incarnation);
      }
    }
  }

  lemma SameClaims(a: Registry, b: Registry)
    requires a.rows == b.rows && a.dormant == b.dormant && a.leases == b.leases
    ensures Loadable(a) <==> Loadable(b)
  {
    assert forall pair, id, n :: Claimed(a, pair, id, n) <==> Claimed(b, pair, id, n);
  }

  // A new row takes the place of a dormant one.
  lemma NewRowIsLoadableIff(reg: Registry, id: string, row: Row, mark: nat)
    requires Loadable(reg)
    requires row.isLocal && Complete(row) ==> !HeldElsewhere(reg.(dormant := reg.dormant - {id}), id, PairOf(row))
    ensures Loadable(Registry(reg.rows[id := row], reg.dormant - {id}, reg.leases, mark)) <==>
            LeasesAllowRow(reg, id, row)
  {
    var rest := reg.(dormant := reg.dormant - {id});
    FewerClaims(reg, rest);
    WriteIsLoadableIff(rest, id, row);
    var after := Registry(reg.rows[id := row], reg.dormant - {id}, reg.leases, mark);
    SameClaims(rest.(rows := rest.rows[id := row]), after);
  }

  lemma NewRowStep(reg: Registry, step: Step)
    requires Inv(reg) && Loadable(reg) && Enabled(reg, step)
    requires step.CommitStart? || step.Register? || step.Recover?
    ensures Loadable(Next(reg, step)) <==> Fits(reg, step)
  {
    var rest := reg.(dormant := reg.dormant - {step.id});
    assert forall pair :: HeldElsewhere(rest, step.id, pair) ==> HeldElsewhere(reg, step.id, pair);
    NewRowIsLoadableIff(reg, step.id, step.row, Next(reg, step).mark);
  }

  lemma EditStep(reg: Registry, step: Step)
    requires Inv(reg) && Loadable(reg) && Enabled(reg, step) && Edits(step)
    ensures Loadable(Next(reg, step)) <==> Fits(reg, step)
  {
    match step
    case Bind(id, pair, _) => WriteIsLoadableIff(reg, id, BoundRow(reg.rows[id], pair));
    case RecoverIdentity(id, pair) => WriteIsLoadableIff(reg, id, PairedRow(reg.rows[id], pair));
    case Rebind(id, pair) => WriteIsLoadableIff(reg, id, PairedRow(reg.rows[id], pair));
    case Commit(c, sid) =>
      if Adopts(reg, c, sid) {
        WriteIsLoadableIff(reg, c.id, AdoptedRow(reg.rows[c.id], OpenCode(sid), c.credential));
      }
    case Finalize(id, meta) => WriteIsLoadableIff(reg, id, FinalizedRow(reg.rows[id], meta));
  }

  lemma AnnounceStep(reg: Registry, step: Step)
    requires Inv(reg) && Loadable(reg) && Enabled(reg, step) && step.Announce?
    ensures Loadable(Next(reg, step)) <==> Fits(reg, step)
  {
    if Captures(reg, step) {
      WriteIsLoadableIff(reg, step.id, WireRow(reg.rows[step.id], step.wire.value));
    } else {
      FewerClaims(reg, Next(reg, step));
    }
  }

  // The incumbent set aside, with the row not yet replaced.
  function SetAside(reg: Registry, id: string): Registry
    requires id in reg.rows && id in reg.leases
  {
    reg.(leases := reg.leases[id := reg.leases[id].(target := Some(reg.mark + 1), previous := Some(reg.rows[id]))])
  }

  lemma SettingAsideFits(reg: Registry, id: string)
    requires Inv(reg) && Loadable(reg) && IsLocal(reg, id) && UnstagedRestart(reg, id) && Whole(reg.rows[id])
    ensures Loadable(SetAside(reg, id))
  {
    assert LeaseOk(reg, id);
    forall pair, other, n | Claimed(SetAside(reg, id), pair, other, n)
      ensures Claimed(reg, pair, other, n)
    {
    }
    FewerClaims(reg, SetAside(reg, id));
  }

  lemma SetAsideAllowsIff(reg: Registry, id: string, pair: S.Pair, n: nat)
    requires Inv(reg) && id in reg.rows && UnstagedRestart(reg, id) && reg.rows[id].incarnation < n
    ensures LeasesAllow(SetAside(reg, id), pair, id, n) <==>
            LeasesAllow(reg, pair, id, n) && !HoldsPair(reg.rows[id], pair)
    ensures HeldElsewhere(SetAside(reg, id), id, pair) <==> HeldElsewhere(reg, id, pair)
  {
    var aside := SetAside(reg, id);
    assert LeaseOk(reg, id);
    assert aside.leases[id].previous == Some(reg.rows[id]) && aside.leases[id].pair.None?;
    assert forall l :: l in reg.leases && l != id ==> aside.leases[l] == reg.leases[l];
    assert HeldByRow(aside, id, pair) <==> HeldByRow(reg, id, pair);
  }

  lemma LeasedStageStep(reg: Registry, step: Step)
    requires Inv(reg) && Loadable(reg) && Enabled(reg, step) && step.Stage? && step.launch.leased
    ensures Loadable(Next(reg, step)) <==> Fits(reg, step)
  {
    var id, row := step.id, reg.rows[step.id];
    var next, aside := LaunchedRow(row, step.launch, reg.mark + 1), SetAside(reg, id);
    assert LeaseOk(reg, id);
    BelowMark(reg, id);
    SameClaims(aside.(rows := aside.rows[id := next]), Next(reg, step));
    if Whole(row) {
      SettingAsideFits(reg, id);
      WriteIsLoadableIff(aside, id, next);
      if Usable(next) {
        SetAsideAllowsIff(reg, id, PairOf(next), reg.mark + 1);
      }
    } else {
      assert !LeaseWhole(Next(reg, step).leases[id]);
    }
  }

  lemma StageStep(reg: Registry, step: Step)
    requires Inv(reg) && Loadable(reg) && Enabled(reg, step) && step.Stage?
    ensures Loadable(Next(reg, step)) <==> Fits(reg, step)
  {
    if step.launch.leased {
      LeasedStageStep(reg, step);
    } else {
      forall pair, other, n | Claimed(Next(reg, step), pair, other, n)
        ensures Claimed(reg, pair, other, n)
      {
      }
      FewerClaims(reg, Next(reg, step));
    }
  }

  lemma RecordStep(reg: Registry, step: Step)
    requires Inv(reg) && Loadable(reg) && Enabled(reg, step) && step.RecordBackend?
    ensures Loadable(Next(reg, step)) <==> Fits(reg, step)
  {
    var id, pair, after := step.id, step.pair, Next(reg, step);
    var n := PairOwner(reg.leases[id]);
    assert LeaseOk(reg, id);
    if Fits(reg, step) {
      RecordFits(reg, step);
    } else if UsablePair(pair) {
      assert Claimed(after, pair, id, n);
      RecordClashes(reg, step);
    } else {
      assert !LeaseWhole(after.leases[id]);
    }
  }

  lemma RecordFits(reg: Registry, step: Step)
    requires Inv(reg) && Loadable(reg) && Enabled(reg, step) && step.RecordBackend? && Fits(reg, step)
    ensures Loadable(Next(reg, step))
  {
    var id, after := step.id, Next(reg, step);
    forall pair, other, n | Claimed(after, pair, other, n)
      ensures if pair == step.pair then other == id && n == PairOwner(reg.leases[id]) else Claimed(reg, pair, other, n)
    {
    }
  }

  lemma RecordClashes(reg: Registry, step: Step)
    requires Inv(reg) && Enabled(reg, step) && step.RecordBackend? && !Fits(reg, step) && UsablePair(step.pair)
    ensures !OneClaimant(Next(reg, step))
  {
    var id, pair, after := step.id, step.pair, Next(reg, step);
    var target := PairOwner(reg.leases[id]);
    assert LeaseOk(reg, id);
    assert Claimed(after, pair, id, target);
    if d :| d in reg.dormant && HoldsPair(reg.dormant[d], pair)
            && !(d == id && reg.dormant[d].incarnation == target) {
      assert Claimed(after, pair, d, reg.dormant[d].incarnation);
    } else if HeldByRow(reg, id, pair) {
      var other :| other in reg.rows && other != id && reg.rows[other].isLocal && HoldsPair(reg.rows[other], pair);
      assert Claimed(after, pair, other, reg.rows[other].incarnation);
    } else if IsLocal(reg, id) && HoldsPair(reg.rows[id], pair) && reg.rows[id].incarnation != target {
      assert Claimed(after, pair, id, reg.rows[id].incarnation);
    } else {
      var l :| l in reg.leases
        && ((reg.leases[l].pair == Some(pair) && l != id)
            || (reg.leases[l].previous.Some? && HoldsPair(reg.leases[l].previous.value, pair)));
      if reg.leases[l].pair == Some(pair) && l != id {
        assert Claimed(after, pair, l, PairOwner(reg.leases[l]));
      } else {
        assert Claimed(after, pair, l, reg.leases[l].previous.value.incarnation);
      }
    }
  }

  // The steps that write no row and stage nothing only give claims up, but for
  // a stop, which claims what its row holds.
  lemma LeasingStep(reg: Registry, step: Step)
    requires Inv(reg) && Loadable(reg) && Enabled(reg, step) && LeaseStep(step) && !step.RecordBackend?
    ensures Loadable(Next(reg, step)) <==> Fits(reg, step)
  {
    var id, after := step.id, Next(reg, step);
    if Fits(reg, step) {
      forall pair, other, n | Claimed(after, pair, other, n)
        ensures Claimed(reg, pair, other, n)
      {
      }
      assert forall l :: l in after.leases && l in reg.leases && after.leases[l] == reg.leases[l] ==>
                           LeaseWhole(after.leases[l]);
      FewerClaims(reg, after);
    } else {
      assert !LeaseWhole(after.leases[id]);
    }
  }

  // A row that is removed, made dormant or rolled back claims nothing new.
  lemma LeavingStep(reg: Registry, step: Step)
    requires Inv(reg) && Loadable(reg) && Enabled(reg, step)
    requires step.ReserveStart? || step.RollBack? || step.Remove? || step.Retire? || step.Forget?
    ensures Loadable(Next(reg, step))
  {
    var after := Next(reg, step);
    assert LeaseOk(reg, step.id);
    forall pair, other, n | Claimed(after, pair, other, n)
      ensures Claimed(reg, pair, other, n)
    {
    }
    FewerClaims(reg, after);
  }

  function NamedBefore(step: Step, id: string): string
    requires step.Rename?
  {
    if id == step.to then step.from else id
  }

  lemma RenameStep(reg: Registry, step: Step)
    requires Inv(reg) && Loadable(reg) && Enabled(reg, step) && step.Rename?
    ensures Loadable(Next(reg, step))
  {
    var after := Next(reg, step);
    forall pair, other, n | Claimed(after, pair, other, n)
      ensures Claimed(reg, pair, NamedBefore(step, other), n) && other != step.from
    {
    }
  }

  // The snapshot stays acceptable over every step that only gives claims up or
  // moves them, and over the others exactly when what they write is claimed by
  // nobody else: nobody, that is, whom their own guards do not ask, such as
  // the row a staged restart would fall back to.
  lemma StepIsLoadableIff(reg: Registry, step: Step)
    requires Inv(reg) && Loadable(reg) && Enabled(reg, step)
    ensures Loadable(Next(reg, step)) <==> Fits(reg, step)
  {
    if step.CommitStart? || step.Register? || step.Recover? {
      NewRowStep(reg, step);
    } else if Edits(step) {
      EditStep(reg, step);
    } else if step.Announce? {
      AnnounceStep(reg, step);
    } else if step.Stage? {
      StageStep(reg, step);
    } else if step.RecordBackend? {
      RecordStep(reg, step);
    } else if LeaseStep(step) {
      LeasingStep(reg, step);
    } else if step.Rename? {
      RenameStep(reg, step);
    } else {
      LeavingStep(reg, step);
    }
  }

  // ----- where it fails -----

  // A restart that resumes its session, or that repairs one with half a pair,
  // is staged over an incumbent the validator will not have beside it. From
  // every state a daemon can start from, what it writes then is refused, until
  // the restart's lease ends.
  lemma ResumedRestartCannotReload(reg: Registry, id: string, launch: Launch, s: S.State, world: L.World)
    requires Inv(reg) && Loadable(reg) && reg.mark < U64_MAX
    requires IsLocal(reg, id) && !Leased(reg, id) && reg.rows[id].reservation.None?
    requires launch.leased && !StagesCleanly(reg, id, launch)
    ensures Enabled(reg, ClaimRestart(id))
    ensures var claimed, stage := Next(reg, ClaimRestart(id)), Stage(id, None, launch);
            && Enabled(claimed, stage)
            && var staged := Next(claimed, stage);
               && (WrittenAs(staged, s) ==> L.Loaded(world, L.Save(s)).None?)
               && Enabled(staged, EndLease(id))
               && (!launch.scheduled ==> Loadable(Next(staged, EndLease(id))))
  {
    ClaimFirst(reg, id);
    StagesAlike(reg, id, launch);
    StagedIsRefused(Next(reg, ClaimRestart(id)), Stage(id, None, launch), s, world);
    if !launch.scheduled {
      EndedRestartLoads(reg, id, launch);
    }
  }

  // Claiming a restart does not decide how it can be staged.
  lemma StagesAlike(reg: Registry, id: string, launch: Launch)
    requires IsLocal(reg, id) && !Leased(reg, id)
    ensures StagesCleanly(Next(reg, ClaimRestart(id)), id, launch) <==> StagesCleanly(reg, id, launch)
  {
    var claimed, next := Next(reg, ClaimRestart(id)), LaunchedRow(reg.rows[id], launch, reg.mark + 1);
    if Usable(next) {
      var pair := PairOf(next);
      assert forall l :: l in reg.leases ==> l != id && claimed.leases[l] == reg.leases[l];
      assert claimed.leases[id].pair.None? && claimed.leases[id].previous.None?;
      assert LeasesAllow(claimed, pair, id, reg.mark + 1) <==> LeasesAllow(reg, pair, id, reg.mark + 1);
      assert HeldByRow(claimed, id, pair) <==> HeldByRow(reg, id, pair);
    }
  }

  lemma StagedIsRefused(reg: Registry, stage: Step, s: S.State, world: L.World)
    requires Inv(reg) && Loadable(reg) && Enabled(reg, stage) && !Fits(reg, stage)
    ensures WrittenAs(Next(reg, stage), s) ==> L.Loaded(world, L.Save(s)).None?
  {
    StepIsLoadableIff(reg, stage);
    StepIsNumberedIff(reg, stage);
    if WrittenAs(Next(reg, stage), s) {
      RestartsIffLoadable(Next(reg, stage), s, world);
    }
  }

  lemma ClaimFirst(reg: Registry, id: string)
    requires Inv(reg) && Loadable(reg) && IsLocal(reg, id) && !Leased(reg, id)
    ensures var claimed := Next(reg, ClaimRestart(id));
            && Inv(claimed) && Loadable(claimed)
            && claimed == reg.(leases := reg.leases[id := RestartLease(reg.rows[id])])
  {
    StepIsLoadableIff(reg, ClaimRestart(id));
    StepIsNumberedIff(reg, ClaimRestart(id));
  }

  lemma EndedRestartLoads(reg: Registry, id: string, launch: Launch)
    requires Inv(reg) && Loadable(reg) && IsLocal(reg, id) && !Leased(reg, id)
    requires launch.leased && !launch.scheduled
    ensures var claimed := Next(reg, ClaimRestart(id));
            var staged := WithLaunch(claimed, id, launch);
            Loadable(staged.(leases := staged.leases - {id}))
  {
    var claimed := Next(reg, ClaimRestart(id));
    var staged := WithLaunch(claimed, id, launch);
    var after := staged.(leases := staged.leases - {id});
    forall pair, other, n | Claimed(after, pair, other, n)
      ensures Claimed(reg, pair, other, if other == id then reg.rows[id].incarnation else n)
      ensures other == id ==> n == reg.mark + 1
    {
    }
  }

  // Binding asks whether another row or lease has the session, but not whether
  // a staged restart would fall back to a row that holds it.
  lemma BindingMissesIncumbents(reg: Registry, id: string, pair: S.Pair, credential: Option<string>)
    requires Inv(reg) && Loadable(reg) && CanBind(reg, id, pair, credential) && !Leased(reg, id) && UsablePair(pair)
    ensures Loadable(Next(reg, Bind(id, pair, credential))) <==>
            forall l :: l in reg.leases && reg.leases[l].previous.Some? ==>
                          !HoldsPair(reg.leases[l].previous.value, pair)
  {
    StepIsLoadableIff(reg, Bind(id, pair, credential));
    forall l | l in reg.leases
      ensures reg.leases[l].pair != Some(pair)
    {
      assert !LeaseBlocks(reg.leases[l], l, id, reg.rows[id], pair);
    }
  }

  // The run of Adoption.RollbackCanShareASession passes through such a state:
  // a daemon that saves between the bind and the rollback cannot start again.
  lemma BothBoundCannotReload(s: S.State, world: L.World)
    requires WrittenAs(Adoption.BothBound(), s)
    ensures L.Loaded(world, L.Save(s)).None?
  {
    var reg := Adoption.BothBound();
    assert Claimed(reg, Adoption.SESSION, "a", 1);
    assert Claimed(reg, Adoption.SESSION, "b", 2);
    RestartsIffLoadable(reg, s, world);
  }
}
