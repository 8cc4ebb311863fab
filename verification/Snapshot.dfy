// The durable snapshot of sessions and lifecycle authority, the claims it
// makes on backend sessions, and what it takes for it to be acceptable.

module Snapshot {
  import opened Options
  import opened Entries

  datatype Owner = Owner(sessionId: string, incarnation: nat)

  datatype Meta = Meta(
    incarnation: nat,
    backend: Option<string>,
    backendSessionId: Option<string>,
    projectDir: Option<string>,
    canonicalProject: Option<string>,
    segmentStartedAt: Option<int>)

  // A persisted live session.
  datatype Row = Row(id: string, meta: Meta)

  datatype Dormant = Dormant(id: string, priorOwner: Owner, meta: Meta, canonicalProject: string)

  // The incumbent row a restart would fall back to.
  datatype Previous = Previous(id: string, isLocal: bool, meta: Meta)

  datatype Phase = Starting | Restarting | Stopping

  datatype Lease = Lease(
    owner: Owner,
    phase: Phase,
    backend: Option<string>,
    backendSessionId: Option<string>,
    backendSessionOwner: Option<Owner>,
    target: Option<Owner>,
    previous: Option<Previous>,
    projectDir: Option<string>,
    projectDirOwner: Option<Owner>,
    cleanupOnAbandon: bool,
    inertPaneOwner: Option<Owner>)

  datatype State = State(
    version: nat,
    sessions: seq<Row>,
    dormant: map<string, Dormant>,
    highWater: nat,
    leases: map<string, Lease>,
    pending: Pending)

  const VERSION := 2

  // ----- claims on backend sessions -----

  datatype Pair = Pair(backend: string, sessionId: string)

  datatype Claim = Claim(pair: Pair, owner: Owner)

  // Both halves present and not empty.
  function CompletePair(meta: Meta): Option<Pair> {
    if meta.backend.Some? && meta.backendSessionId.Some?
       && meta.backend.value != "" && meta.backendSessionId.value != ""
    then Some(Pair(meta.backend.value, meta.backendSessionId.value))
    else None
  }

  // Outside live rows a pair is complete or absent.
  predicate WholePair(meta: Meta) {
    CompletePair(meta).Some? || (meta.backend.None? && meta.backendSessionId.None?)
  }

  function PreviousOwner(previous: Previous): Owner {
    Owner(previous.id, previous.meta.incarnation)
  }

  function ClaimOf(pair: Option<Pair>, owner: Owner): set<Claim> {
    if pair.Some? then {Claim(pair.value, owner)} else {}
  }

  function RowClaim(row: Row): set<Claim> {
    ClaimOf(CompletePair(row.meta), Owner(row.id, row.meta.incarnation))
  }

  function DormantClaim(dormant: Dormant): set<Claim> {
    ClaimOf(CompletePair(dormant.meta), dormant.priorOwner)
  }

  predicate LeaseClaimsPair(lease: Lease) {
    lease.backend.Some? && lease.backendSessionId.Some? && lease.backendSessionOwner.Some?
  }

  function LeaseClaim(lease: Lease): set<Claim> {
    if LeaseClaimsPair(lease)
    then {Claim(Pair(lease.backend.value, lease.backendSessionId.value), lease.backendSessionOwner.value)}
    else {}
  }

  function PreviousClaim(lease: Lease): set<Claim> {
    if lease.previous.Some?
    then ClaimOf(CompletePair(lease.previous.value.meta), PreviousOwner(lease.previous.value))
    else {}
  }

  ghost function LiveClaims(sessions: seq<Row>, n: nat): set<Claim>
    requires n <= |sessions|
  {
    set i, c | 0 <= i < n && c in RowClaim(sessions[i]) :: c
  }

  ghost function DormantClaims(dormant: map<string, Dormant>, keys: set<string>): set<Claim> {
    set k, c | k in keys && k in dormant && c in DormantClaim(dormant[k]) :: c
  }

  ghost function LeaseClaims(leases: map<string, Lease>, keys: set<string>): set<Claim> {
    set k, c | k in keys && k in leases && c in LeaseClaim(leases[k]) + PreviousClaim(leases[k]) :: c
  }

  ghost function AllClaims(s: State): set<Claim> {
    LiveClaims(s.sessions, |s.sessions|)
    + DormantClaims(s.dormant, s.dormant.Keys)
    + LeaseClaims(s.leases, s.leases.Keys)
  }

  ghost predicate OneOwner(claims: set<Claim>) {
    forall a, b :: a in claims && b in claims && a.pair == b.pair ==> a.owner == b.owner
  }

  // ----- acceptable snapshots -----

  ghost predicate DistinctRows(sessions: seq<Row>) {
    forall i, j :: 0 <= i < j < |sessions| ==> sessions[i].id != sessions[j].id
  }

  predicate UsableProject(path: string) {
    path != [] && path[0] == '/' && path != "/"
  }

  predicate SafeProject(d: Dormant) {
    && d.meta.projectDir.Some? && UsableProject(d.meta.projectDir.value)
    && UsableProject(d.canonicalProject)
    && d.meta.canonicalProject == Some(d.canonicalProject)
  }

  predicate DormantConsistent(key: string, d: Dormant) {
    && d.id == key
    && d.priorOwner == Owner(key, d.meta.incarnation)
    && SafeProject(d)
    && d.meta.segmentStartedAt.None?
    && WholePair(d.meta)
  }

  predicate LeasePairsWhole(lease: Lease) {
    && (LeaseClaimsPair(lease) ==> lease.backend.value != "" && lease.backendSessionId.value != "")
    && (lease.previous.Some? ==> WholePair(lease.previous.value.meta))
  }

  // No two owners hold one backend session, no id is held twice, and every row
  // that is not live agrees with itself.
  ghost predicate Authorized(s: State) {
    && DistinctRows(s.sessions)
    && (forall i :: 0 <= i < |s.sessions| ==> s.sessions[i].id !in s.dormant)
    && (forall k :: k in s.dormant ==> DormantConsistent(k, s.dormant[k]))
    && (forall k :: k in s.leases ==> LeasePairsWhole(s.leases[k]))
    && OneOwner(AllClaims(s))
  }

  // ----- coherent leases -----

  predicate NoBackendClaim(lease: Lease) {
    lease.backend.None? && lease.backendSessionId.None? && lease.backendSessionOwner.None?
  }

  predicate BackendClaimedBy(lease: Lease, owner: Owner) {
    lease.backend.Some? && lease.backendSessionId.Some? && lease.backendSessionOwner == Some(owner)
  }

  predicate NoTarget(lease: Lease) {
    lease.target.None? && lease.previous.None?
  }

  // A staged restart: a strictly newer owner of the same id, over the leased incumbent.
  predicate StagedTarget(key: string, lease: Lease) {
    && lease.target.Some?
    && lease.previous.Some?
    && lease.target.value.sessionId == key
    && lease.target.value.incarnation > lease.owner.incarnation
    && lease.previous.value.id == key
    && PreviousOwner(lease.previous.value) == lease.owner
    && lease.previous.value.isLocal
  }

  predicate SameId(key: string, owner: Option<Owner>) {
    owner.Some? ==> owner.value.sessionId == key
  }

  // What each phase may hold.
  predicate Coherent(key: string, lease: Lease) {
    && lease.owner.sessionId == key
    && SameId(key, lease.inertPaneOwner)
    && SameId(key, lease.projectDirOwner)
    && (lease.projectDir.Some? <==> lease.projectDirOwner.Some?)
    && (lease.cleanupOnAbandon ==> lease.projectDir.Some?)
    && match lease.phase
       case Starting => NoBackendClaim(lease) && NoTarget(lease)
       case Stopping => NoTarget(lease) && (NoBackendClaim(lease) || BackendClaimedBy(lease, lease.owner))
       case Restarting =>
         || (NoTarget(lease) && NoBackendClaim(lease))
         || (StagedTarget(key, lease) && (NoBackendClaim(lease) || BackendClaimedBy(lease, lease.target.value)))
  }

  ghost predicate AllCoherent(leases: map<string, Lease>) {
    forall k :: k in leases ==> Coherent(k, leases[k])
  }

  ghost predicate Acceptable(s: State) {
    Authorized(s) && AllCoherent(s.leases)
  }

  lemma LeaseClaimsCounted(s: State, key: string)
    requires key in s.leases
    ensures LeaseClaim(s.leases[key]) + PreviousClaim(s.leases[key]) <= AllClaims(s)
  {
    assert key in s.leases.Keys;
  }

  // The two checks together keep a restart apart from its incumbent: a
  // restarting lease that claims a backend session claims it for a strictly
  // newer owner, the incumbent's stored session is a different one, and any
  // live or dormant row that holds the claimed session is the target itself.
  lemma RestartIsExclusive(s: State, key: string)
    requires Acceptable(s) && key in s.leases
    requires s.leases[key].phase.Restarting? && s.leases[key].backend.Some?
    ensures var lease := s.leases[key];
            && LeaseClaimsPair(lease)
            && lease.previous.Some?
            && var pair := Pair(lease.backend.value, lease.backendSessionId.value);
               var owner := lease.backendSessionOwner.value;
               && owner.sessionId == key
               && owner.incarnation > lease.previous.value.meta.incarnation
               && CompletePair(lease.previous.value.meta) != Some(pair)
               && (forall i :: 0 <= i < |s.sessions| && CompletePair(s.sessions[i].meta) == Some(pair) ==>
                     Owner(s.sessions[i].id, s.sessions[i].meta.incarnation) == owner)
               && (forall k :: k in s.dormant && CompletePair(s.dormant[k].meta) == Some(pair) ==>
                     s.dormant[k].priorOwner == owner)
  {
    var lease := s.leases[key];
    var claim := Claim(Pair(lease.backend.value, lease.backendSessionId.value), lease.backendSessionOwner.value);
    LeaseClaimsCounted(s, key);
    assert claim in AllClaims(s);
    var stored := CompletePair(lease.previous.value.meta);
    assert stored.Some? ==> Claim(stored.value, PreviousOwner(lease.previous.value)) in AllClaims(s);
    forall i | 0 <= i < |s.sessions| && CompletePair(s.sessions[i].meta) == Some(claim.pair)
      ensures Owner(s.sessions[i].id, s.sessions[i].meta.incarnation) == claim.owner
    {
      var held := Claim(claim.pair, Owner(s.sessions[i].id, s.sessions[i].meta.incarnation));
      assert held in RowClaim(s.sessions[i]);
      assert held in AllClaims(s);
    }
    forall k | k in s.dormant && CompletePair(s.dormant[k].meta) == Some(claim.pair)
      ensures s.dormant[k].priorOwner == claim.owner
    {
      assert Claim(claim.pair, s.dormant[k].priorOwner) in DormantClaim(s.dormant[k]);
      assert Claim(claim.pair, s.dormant[k].priorOwner) in AllClaims(s);
    }
  }
}
