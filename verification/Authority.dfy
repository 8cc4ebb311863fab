// The authority validator: loops over live rows, dormant rows and leases that
// fill a map from backend sessions to owners. The maps are visited in whatever
// order :| picks, so the results hold for every iteration order.

module Authority {
  import opened Options
  import opened Snapshot

  datatype AuthorityError =
    | DuplicateLiveId(id: string)
    | LiveAndDormant(id: string)
    | DormantOwnerMismatch(id: string)
    | DormantProjectUnsafe(id: string)
    | DormantSegmentOpen(id: string)
    | DormantPairIncomplete(id: string)
    | IncompleteLeasePair(id: string)
    | DistinctOwners(pair: Pair, first: Owner, second: Owner)

  // What a reported error says about the snapshot.
  ghost predicate Justified(s: State, e: AuthorityError) {
    match e
    case DuplicateLiveId(id) => exists i, j :: 0 <= i < j < |s.sessions| && s.sessions[i].id == id == s.sessions[j].id
    case LiveAndDormant(id) => id in s.dormant && exists i :: 0 <= i < |s.sessions| && s.sessions[i].id == id
    case DormantOwnerMismatch(id) =>
      && id in s.dormant
      && (s.dormant[id].id != id || s.dormant[id].priorOwner != Owner(id, s.dormant[id].meta.incarnation))
    case DormantProjectUnsafe(id) => id in s.dormant && !SafeProject(s.dormant[id])
    case DormantSegmentOpen(id) => id in s.dormant && s.dormant[id].meta.segmentStartedAt.Some?
    case DormantPairIncomplete(id) => id in s.dormant && !WholePair(s.dormant[id].meta)
    case IncompleteLeasePair(id) => id in s.leases && !LeasePairsWhole(s.leases[id])
    case DistinctOwners(pair, first, second) =>
      first != second && Claim(pair, first) in AllClaims(s) && Claim(pair, second) in AllClaims(s)
  }

  lemma JustifiedRefutes(s: State, e: AuthorityError)
    requires Justified(s, e)
    ensures !Authorized(s)
  {
  }

  // The claim map holds exactly the claims seen so far, one owner each.
  ghost predicate Records(claims: map<Pair, Owner>, seen: set<Claim>) {
    && (forall p :: p in claims ==> Claim(p, claims[p]) in seen)
    && (forall c :: c in seen ==> c.pair in claims && claims[c.pair] == c.owner)
  }

  lemma RecordsOneOwner(claims: map<Pair, Owner>, seen: set<Claim>)
    requires Records(claims, seen)
    ensures OneOwner(seen)
  {
  }

  // Add one claim, unless the pair already has another owner.
  method ClaimPair(claims: map<Pair, Owner>, pair: Option<Pair>, owner: Owner, ghost seen: set<Claim>)
    returns (clash: Option<Owner>, after: map<Pair, Owner>)
    requires Records(claims, seen)
    ensures clash.None? ==> Records(after, seen + ClaimOf(pair, owner))
    ensures clash.Some? ==> pair.Some? && clash.value != owner && Claim(pair.value, clash.value) in seen
  {
    clash, after := None, claims;
    if pair.Some? {
      if pair.value in claims && claims[pair.value] != owner {
        return Some(claims[pair.value]), claims;
      }
      after := claims[pair.value := owner];
    }
  }

  method ClaimLiveRows(s: State)
    returns (error: Option<AuthorityError>, liveIds: set<string>, claims: map<Pair, Owner>)
    ensures error.Some? ==> Justified(s, error.value)
    ensures error.None? ==>
              && DistinctRows(s.sessions)
              && (forall id :: id in liveIds <==> exists i :: 0 <= i < |s.sessions| && s.sessions[i].id == id)
              && Records(claims, LiveClaims(s.sessions, |s.sessions|))
  {
    error, liveIds, claims := None, {}, map[];
    var i := 0;
    while i < |s.sessions|
      invariant i <= |s.sessions|
      invariant forall j, k :: 0 <= j < k < i ==> s.sessions[j].id != s.sessions[k].id
      invariant forall id :: id in liveIds <==> exists j :: 0 <= j < i && s.sessions[j].id == id
      invariant Records(claims, LiveClaims(s.sessions, i))
    {
      var row := s.sessions[i];
      if row.id in liveIds {
        error := Some(DuplicateLiveId(row.id));
        return;
      }
      liveIds := liveIds + {row.id};
      var owner := Owner(row.id, row.meta.incarnation);
      assert LiveClaims(s.sessions, i + 1) == LiveClaims(s.sessions, i) + RowClaim(row);
      var clash, after := ClaimPair(claims, CompletePair(row.meta), owner, LiveClaims(s.sessions, i));
      if clash.Some? {
        var pair := CompletePair(row.meta).value;
        assert Claim(pair, owner) in RowClaim(row);
        assert Claim(pair, owner) in AllClaims(s);
        error := Some(DistinctOwners(pair, clash.value, owner));
        return;
      }
      claims := after;
      i := i + 1;
    }
  }

  // The checks made of one dormant row, in the order they are made.
  method CheckDormant(key: string, dormant: Dormant, ghost s: State) returns (error: Option<AuthorityError>)
    requires key in s.dormant && s.dormant[key] == dormant
    ensures error.None? <==> DormantConsistent(key, dormant)
    ensures error.Some? ==> Justified(s, error.value)
  {
    if key != dormant.id || key != dormant.priorOwner.sessionId
       || dormant.meta.incarnation != dormant.priorOwner.incarnation {
      return Some(DormantOwnerMismatch(key));
    }
    if dormant.meta.projectDir.None? || !UsableProject(dormant.meta.projectDir.value)
       || !UsableProject(dormant.canonicalProject) || dormant.meta.canonicalProject != Some(dormant.canonicalProject) {
      return Some(DormantProjectUnsafe(key));
    }
    if dormant.meta.segmentStartedAt.Some? {
      return Some(DormantSegmentOpen(key));
    }
    if !WholePair(dormant.meta) {
      return Some(DormantPairIncomplete(key));
    }
    return None;
  }

  method ClaimDormantRows(s: State, liveIds: set<string>, liveClaims: map<Pair, Owner>)
    returns (error: Option<AuthorityError>, claims: map<Pair, Owner>)
    requires forall id :: id in liveIds <==> exists i :: 0 <= i < |s.sessions| && s.sessions[i].id == id
    requires Records(liveClaims, LiveClaims(s.sessions, |s.sessions|))
    ensures error.Some? ==> Justified(s, error.value)
    ensures error.None? ==>
              && liveIds !! s.dormant.Keys
              && (forall k :: k in s.dormant ==> DormantConsistent(k, s.dormant[k]))
              && Records(claims, LiveClaims(s.sessions, |s.sessions|) + DormantClaims(s.dormant, s.dormant.Keys))
  {
    error, claims := None, liveClaims;
    var todo := s.dormant.Keys;
    ghost var live := LiveClaims(s.sessions, |s.sessions|);
    ghost var seen := {};
    assert DormantClaims(s.dormant, {}) == {};
    while todo != {}
      invariant error.None?
      invariant todo + seen == s.dormant.Keys && todo !! seen
      invariant forall k :: k in seen ==> k !in liveIds && DormantConsistent(k, s.dormant[k])
      invariant Records(claims, live + DormantClaims(s.dormant, seen))
    {
      var key :| key in todo;
      var dormant := s.dormant[key];
      if key in liveIds {
        error := Some(LiveAndDormant(key));
        return;
      }
      error := CheckDormant(key, dormant, s);
      if error.Some? {
        return;
      }
      assert DormantClaims(s.dormant, seen + {key}) == DormantClaims(s.dormant, seen) + DormantClaim(dormant);
      ghost var known := live + DormantClaims(s.dormant, seen);
      assert live + DormantClaims(s.dormant, seen + {key}) == known + DormantClaim(dormant);
      var clash, after := ClaimPair(claims, CompletePair(dormant.meta), dormant.priorOwner, known);
      if clash.Some? {
        var pair := CompletePair(dormant.meta).value;
        assert Claim(pair, dormant.priorOwner) in DormantClaim(dormant);
        assert Claim(pair, dormant.priorOwner) in AllClaims(s);
        error := Some(DistinctOwners(pair, clash.value, dormant.priorOwner));
        return;
      }
      claims := after;
      todo := todo - {key};
      seen := seen + {key};
    }
    assert seen == s.dormant.Keys;
  }

  // The claims of all rows and of the leases visited so far.
  ghost function ClaimsUpTo(s: State, seen: set<string>): set<Claim> {
    LiveClaims(s.sessions, |s.sessions|) + DormantClaims(s.dormant, s.dormant.Keys) + LeaseClaims(s.leases, seen)
  }

  lemma OneMoreLease(s: State, seen: set<string>, key: string)
    requires key in s.leases && seen <= s.leases.Keys
    ensures ClaimsUpTo(s, seen + {key}) ==
            ClaimsUpTo(s, seen) + LeaseClaim(s.leases[key]) + PreviousClaim(s.leases[key])
    ensures ClaimsUpTo(s, seen) <= AllClaims(s)
  {
    var added := LeaseClaim(s.leases[key]) + PreviousClaim(s.leases[key]);
    forall c
      ensures c in LeaseClaims(s.leases, seen + {key}) <==> c in LeaseClaims(s.leases, seen) || c in added
    {
      if c in added {
        assert key in seen + {key};
      }
      if k :| k in seen && k in s.leases && c in LeaseClaim(s.leases[k]) + PreviousClaim(s.leases[k]) {
        assert k in seen + {key};
      }
    }
  }

  method ClaimLeases(s: State, rowClaims: map<Pair, Owner>) returns (error: Option<AuthorityError>)
    requires Records(rowClaims, LiveClaims(s.sessions, |s.sessions|) + DormantClaims(s.dormant, s.dormant.Keys))
    ensures error.Some? ==> Justified(s, error.value)
    ensures error.None? ==> (forall k :: k in s.leases ==> LeasePairsWhole(s.leases[k])) && OneOwner(AllClaims(s))
  {
    error := None;
    var claims := rowClaims;
    var todo := s.leases.Keys;
    ghost var seen := {};
    assert ClaimsUpTo(s, {}) == LiveClaims(s.sessions, |s.sessions|) + DormantClaims(s.dormant, s.dormant.Keys);
    while todo != {}
      invariant error.None?
      invariant todo + seen == s.leases.Keys && todo !! seen
      invariant forall k :: k in seen ==> LeasePairsWhole(s.leases[k])
      invariant Records(claims, ClaimsUpTo(s, seen))
    {
      var key :| key in todo;
      if !LeasePairsWhole(s.leases[key]) {
        error := Some(IncompleteLeasePair(key));
        return;
      }
      OneMoreLease(s, seen, key);
      error, claims := ClaimLease(s, key, claims, ClaimsUpTo(s, seen));
      if error.Some? {
        return;
      }
      todo := todo - {key};
      seen := seen + {key};
    }
    assert seen == s.leases.Keys;
    RecordsOneOwner(claims, AllClaims(s));
  }

  // The two claims one lease can make.
  method ClaimLease(s: State, key: string, claims: map<Pair, Owner>, ghost seen: set<Claim>)
    returns (error: Option<AuthorityError>, after: map<Pair, Owner>)
    requires key in s.leases && seen <= AllClaims(s)
    requires Records(claims, seen)
    ensures error.Some? ==> Justified(s, error.value)
    ensures error.None? ==> Records(after, seen + LeaseClaim(s.leases[key]) + PreviousClaim(s.leases[key]))
  {
    error, after := None, claims;
    var lease := s.leases[key];
    LeaseClaimsCounted(s, key);
    if LeaseClaimsPair(lease) {
      var pair := Pair(lease.backend.value, lease.backendSessionId.value);
      var clash, added := ClaimPair(after, Some(pair), lease.backendSessionOwner.value, seen);
      if clash.Some? {
        assert Claim(pair, lease.backendSessionOwner.value) in LeaseClaim(lease);
        return Some(DistinctOwners(pair, clash.value, lease.backendSessionOwner.value)), added;
      }
      after := added;
    }
    if lease.previous.Some? {
      var previous := lease.previous.value;
      var clash, added :=
        ClaimPair(after, CompletePair(previous.meta), PreviousOwner(previous), seen + LeaseClaim(lease));
      if clash.Some? {
        assert Claim(CompletePair(previous.meta).value, PreviousOwner(previous)) in PreviousClaim(lease);
        return Some(DistinctOwners(CompletePair(previous.meta).value, clash.value, PreviousOwner(previous))), added;
      }
      after := added;
    }
  }

  // The validator accepts exactly the authorized snapshots, whatever the order
  // of its maps, and a rejection always names a defect that is really there.
  method ValidateSessionAuthority(s: State) returns (error: Option<AuthorityError>)
    ensures error.None? <==> Authorized(s)
    ensures error.Some? ==> Justified(s, error.value)
  {
    var liveIds, liveClaims, rowClaims;
    error, liveIds, liveClaims := ClaimLiveRows(s);
    if error.None? {
      error, rowClaims := ClaimDormantRows(s, liveIds, liveClaims);
      if error.None? {
        error := ClaimLeases(s, rowClaims);
      }
    }
    if error.Some? {
      JustifiedRefutes(s, error.value);
    }
  }

  datatype LeaseError =
    | KeyMismatch(id: string)
    | CleanupOwnerOutOfPhase(id: string)
    | IncompleteBackendClaim(id: string)
    | BackendClaimOutOfPhase(id: string)
    | IncompleteTarget(id: string)
    | TargetOutOfPhase(id: string)
    | InconsistentRestart(id: string)
    | IncompleteProjectClaim(id: string)
    | CleanupWithoutProject(id: string)

  // The checks made of one lease, in the order they are made.
  method CheckLease(key: string, lease: Lease) returns (error: Option<LeaseError>)
    ensures error.None? <==> Coherent(key, lease)
    ensures error.Some? ==> error.value.id == key
  {
    if lease.owner.sessionId != key {
      return Some(KeyMismatch(key));
    }
    if lease.inertPaneOwner.Some? && lease.inertPaneOwner.value.sessionId != key {
      return Some(KeyMismatch(key));
    }
    if lease.projectDirOwner.Some? && lease.projectDirOwner.value.sessionId != key {
      return Some(KeyMismatch(key));
    }
    if lease.backendSessionOwner.Some? && lease.backendSessionOwner.value.sessionId != key {
      return Some(KeyMismatch(key));
    }
    if lease.backendSessionOwner.Some? {
      var expected := match lease.phase
        case Stopping => Some(lease.owner)
        case Restarting => lease.target
        case Starting => None;
      if expected != lease.backendSessionOwner {
        return Some(CleanupOwnerOutOfPhase(key));
      }
    }
    if (lease.backend.Some? || lease.backendSessionId.Some? || lease.backendSessionOwner.Some?)
       && !(lease.backend.Some? && lease.backendSessionId.Some? && lease.backendSessionOwner.Some?) {
      return Some(IncompleteBackendClaim(key));
    }
    if lease.backend.Some? && !(lease.phase.Stopping? || lease.phase.Restarting?) {
      return Some(BackendClaimOutOfPhase(key));
    }
    if lease.target.Some? != lease.previous.Some? {
      return Some(IncompleteTarget(key));
    }
    if lease.target.Some? && lease.previous.Some? {
      var target, previous := lease.target.value, lease.previous.value;
      if !lease.phase.Restarting? {
        return Some(TargetOutOfPhase(key));
      }
      if target.sessionId != key || previous.id != key || PreviousOwner(previous) != lease.owner
         || !previous.isLocal || target.incarnation <= lease.owner.incarnation {
        return Some(InconsistentRestart(key));
      }
    }
    if lease.projectDir.Some? != lease.projectDirOwner.Some? {
      return Some(IncompleteProjectClaim(key));
    }
    if lease.cleanupOnAbandon && lease.projectDir.None? {
      return Some(CleanupWithoutProject(key));
    }
    return None;
  }

  method CheckLeases(leases: map<string, Lease>) returns (error: Option<LeaseError>)
    ensures error.None? <==> AllCoherent(leases)
    ensures error.Some? ==> error.value.id in leases && !Coherent(error.value.id, leases[error.value.id])
  {
    error := None;
    var todo := leases.Keys;
    while todo != {}
      invariant error.None?
      invariant todo <= leases.Keys
      invariant forall k :: k in leases && k !in todo ==> Coherent(k, leases[k])
    {
      var key :| key in todo;
      error := CheckLease(key, leases[key]);
      if error.Some? {
        return;
      }
      todo := todo - {key};
    }
  }
}
