// Loading and saving the snapshot: the version switch, migration of legacy
// project identities, both checks, and the normalized incarnation mark.

module LoadSave {
  import opened Options
  import opened Snapshot
  import A = Authority

  // ----- the incarnation mark -----

  predicate IsGreatest(s: set<nat>, m: nat) {
    m in s && forall x :: x in s ==> x <= m
  }

  // The greatest member, or 0 for the empty set.
  function Greatest(s: set<nat>): (m: nat)
    ensures forall x :: x in s ==> x <= m
    ensures s != {} ==> m in s
    ensures s == {} ==> m == 0
  {
    if s == {} then 0
    else
      GreatestExists(s);
      var m: nat :| IsGreatest(s, m);
      m
  }

  lemma {:induction false} GreatestExists(s: set<nat>)
    requires s != {}
    ensures exists m: nat :: IsGreatest(s, m)
  {
    var x :| x in s;
    var rest := s - {x};
    if rest == {} {
      assert s == {x};
      assert IsGreatest(s, x);
    } else {
      GreatestExists(rest);
      var m: nat :| IsGreatest(rest, m);
      assert s == rest + {x};
      assert IsGreatest(s, Max(x, m));
    }
  }

  function Max(a: nat, b: nat): nat {
    if a <= b then b else a
  }

  function Incarnation(owner: Option<Owner>): set<nat> {
    if owner.Some? then {owner.value.incarnation} else {}
  }

  // The six places a lease records an incarnation.
  function LeaseIncarnations(lease: Lease): set<nat> {
    {lease.owner.incarnation}
    + Incarnation(lease.inertPaneOwner)
    + Incarnation(lease.projectDirOwner)
    + Incarnation(lease.backendSessionOwner)
    + Incarnation(lease.target)
    + (if lease.previous.Some? then {lease.previous.value.meta.incarnation} else {})
  }

  function LiveIncarnations(s: State): set<nat> {
    set i | 0 <= i < |s.sessions| :: s.sessions[i].meta.incarnation
  }

  function DormantIncarnations(s: State): set<nat> {
    (set k | k in s.dormant :: s.dormant[k].priorOwner.incarnation)
    + (set k | k in s.dormant :: s.dormant[k].meta.incarnation)
  }

  function AllLeaseIncarnations(s: State): set<nat> {
    set k, n | k in s.leases && n in LeaseIncarnations(s.leases[k]) :: n
  }

  function Normalized(s: State): State {
    s.(highWater := Max(Max(Max(s.highWater, Greatest(LiveIncarnations(s))), Greatest(DormantIncarnations(s))),
                        Greatest(AllLeaseIncarnations(s))))
  }

  // Some live row, dormant row or lease of the snapshot carries this incarnation.
  ghost predicate InLive(s: State, n: nat) {
    exists i :: 0 <= i < |s.sessions| && s.sessions[i].meta.incarnation == n
  }

  ghost predicate InDormant(s: State, n: nat) {
    exists k :: k in s.dormant && (s.dormant[k].priorOwner.incarnation == n || s.dormant[k].meta.incarnation == n)
  }

  ghost predicate InLeases(s: State, n: nat) {
    exists k :: k in s.leases && n in LeaseIncarnations(s.leases[k])
  }

  ghost predicate Recorded(s: State, n: nat) {
    InLive(s, n) || InDormant(s, n) || InLeases(s, n)
  }

  // bound is below neither the stored mark nor any recorded incarnation.
  ghost predicate Bounds(s: State, bound: nat) {
    s.highWater <= bound && (forall n: nat :: Recorded(s, n) ==> n <= bound)
  }

  lemma LivePlaces(s: State, n: nat)
    ensures InLive(s, n) <==> n in LiveIncarnations(s)
  {
  }

  lemma DormantPlaces(s: State, n: nat)
    ensures InDormant(s, n) <==> n in DormantIncarnations(s)
  {
  }

  lemma LeasePlaces(s: State, n: nat)
    ensures InLeases(s, n) <==> n in AllLeaseIncarnations(s)
  {
  }

  lemma RecordedPlaces(s: State, n: nat)
    ensures Recorded(s, n) <==> n in LiveIncarnations(s) || n in DormantIncarnations(s) || n in AllLeaseIncarnations(s)
  {
    LivePlaces(s, n);
    DormantPlaces(s, n);
    LeasePlaces(s, n);
  }

  // Max of the mark and three sets is the least bound of all of them.
  lemma MaxIsLeast(mark: nat, a: set<nat>, b: set<nat>, c: set<nat>, bound: nat)
    ensures var m := Max(Max(Max(mark, Greatest(a)), Greatest(b)), Greatest(c));
            && mark <= m
            && (forall n :: n in a || n in b || n in c ==> n <= m)
            && (mark <= bound && (forall n :: n in a || n in b || n in c ==> n <= bound) ==> m <= bound)
  {
  }

  // The normalized mark is the least such bound.
  lemma NormalizedIsLeastBound(s: State, bound: nat)
    ensures Bounds(s, Normalized(s).highWater)
    ensures Bounds(s, bound) ==> Normalized(s).highWater <= bound
  {
    forall n: nat
      ensures Recorded(s, n) <==>
              n in LiveIncarnations(s) || n in DormantIncarnations(s) || n in AllLeaseIncarnations(s)
    {
      RecordedPlaces(s, n);
    }
    MaxIsLeast(s.highWater, LiveIncarnations(s), DormantIncarnations(s), AllLeaseIncarnations(s), bound);
  }

  lemma NormalizeTwice(s: State)
    ensures Normalized(Normalized(s)) == Normalized(s)
  {
    var once := Normalized(s);
    assert LiveIncarnations(once) == LiveIncarnations(s);
    assert DormantIncarnations(once) == DormantIncarnations(s);
    assert AllLeaseIncarnations(once) == AllLeaseIncarnations(s);
  }

  // ----- files -----

  datatype File =
    | Missing
    | Unreadable
    | Legacy(rows: seq<Row>)
    | Versioned(state: State)

  datatype Identity = Identity(projectDir: string, repository: string)

  // What the file system and git say about a path: whether it is an absolute,
  // non-root directory, and which project it belongs to.
  datatype World = World(isProjectDir: string -> bool, identify: string -> Option<Identity>)

  datatype LoadError =
    | BadFile
    | UnsupportedVersion(version: nat)
    | Unauthorized(authority: A.AuthorityError)
    | Incoherent(lease: A.LeaseError)

  const EMPTY := State(VERSION, [], map[], 0, map[], map[])

  function MigratedRow(world: World, row: Row): Row {
    if row.meta.canonicalProject.Some? || row.meta.projectDir.None? then row
    else if !world.isProjectDir(row.meta.projectDir.value) then row
    else
      var identity := world.identify(row.meta.projectDir.value);
      if identity.None? then row
      else row.(meta := row.meta.(
        projectDir := Some(identity.value.projectDir),
        canonicalProject := Some(identity.value.repository)))
  }

  // What migration makes of a row: one with a usable directory and no canonical
  // project gets both names of the project it belongs to, its own directory and
  // the repository's; any other stays as it is. Nothing else of a row changes.
  predicate MigratesTo(world: World, before: Row, after: Row) {
    && after.id == before.id
    && after.meta.incarnation == before.meta.incarnation
    && after.meta.backend == before.meta.backend && after.meta.backendSessionId == before.meta.backendSessionId
    && after.meta.segmentStartedAt == before.meta.segmentStartedAt
    && (var meta := before.meta;
        var unresolved := meta.canonicalProject.None? && meta.projectDir.Some?;
        if unresolved && world.isProjectDir(meta.projectDir.value) && world.identify(meta.projectDir.value).Some? then
          var identity := world.identify(meta.projectDir.value).value;
          after.meta.projectDir == Some(identity.projectDir) && after.meta.canonicalProject == Some(identity.repository)
        else after.meta.projectDir == meta.projectDir && after.meta.canonicalProject == meta.canonicalProject)
  }

  ghost predicate AllMigrateTo(world: World, before: seq<Row>, after: seq<Row>) {
    |after| == |before| && forall i :: 0 <= i < |before| ==> MigratesTo(world, before[i], after[i])
  }

  // What each form of the file loads as, but for its mark: legacy rows alone,
  // migrated; version 1 migrated and with nothing dormant; version 2 as it is.
  ghost predicate LoadsAs(world: World, file: File, s: State) {
    && s.version == 2
    && match file
       case Missing => s == State(2, [], map[], 0, map[], map[])
       case Unreadable => false
       case Legacy(rows) =>
         AllMigrateTo(world, rows, s.sessions) && s.dormant == map[] && s.leases == map[] && s.pending == map[]
       case Versioned(v) =>
         && s.leases == v.leases && s.pending == v.pending && v.highWater <= s.highWater
         && (if v.version == 1 then AllMigrateTo(world, v.sessions, s.sessions) && s.dormant == map[]
             else v.version == 2 && s.sessions == v.sessions && s.dormant == v.dormant)
  }

  function Migrated(world: World, rows: seq<Row>): seq<Row> {
    seq(|rows|, i requires 0 <= i < |rows| => MigratedRow(world, rows[i]))
  }

  // The snapshot a file stands for, before it is checked.
  function Decoded(world: World, file: File): Result<State, LoadError> {
    match file
    case Missing => Ok(EMPTY)
    case Unreadable => Err(BadFile)
    case Legacy(rows) => Ok(Normalized(State(VERSION, Migrated(world, rows), map[], 0, map[], map[])))
    case Versioned(s) =>
      if s.version == 1 then Ok(s.(version := VERSION, dormant := map[], sessions := Migrated(world, s.sessions)))
      else if s.version == VERSION then Ok(s)
      else Err(UnsupportedVersion(s.version))
  }

  // The snapshot a file loads as, if it does.
  ghost function Loaded(world: World, file: File): Option<State> {
    var decoded := Decoded(world, file);
    if decoded.Ok? && Acceptable(decoded.value) then Some(Normalized(decoded.value)) else None
  }

  function Save(s: State): File {
    Versioned(s)
  }

  method MigrateLegacyProjectIdentities(world: World, rows: array<Row>)
    modifies rows
    ensures rows[..] == Migrated(world, old(rows[..]))
    ensures AllMigrateTo(world, old(rows[..]), rows[..])
  {
    var i := 0;
    while i < rows.Length
      invariant i <= rows.Length
      invariant forall j :: 0 <= j < i ==> rows[j] == MigratedRow(world, old(rows[j]))
      invariant forall j :: i <= j < rows.Length ==> rows[j] == old(rows[j])
    {
      var row := rows[i];
      if row.meta.canonicalProject.None? && row.meta.projectDir.Some? && world.isProjectDir(row.meta.projectDir.value) {
        var identity := world.identify(row.meta.projectDir.value);
        if identity.Some? {
          rows[i] := row.(meta := row.meta.(
            projectDir := Some(identity.value.projectDir),
            canonicalProject := Some(identity.value.repository)));
        }
      }
      i := i + 1;
    }
  }

  method Migrate(world: World, rows: seq<Row>) returns (migrated: seq<Row>)
    ensures migrated == Migrated(world, rows) && AllMigrateTo(world, rows, migrated)
  {
    var buffer := new Row[|rows|](i requires 0 <= i < |rows| => rows[i]);
    assert buffer[..] == rows;
    MigrateLegacyProjectIdentities(world, buffer);
    migrated := buffer[..];
  }

  method LoadSessions(world: World, file: File) returns (r: Result<State, LoadError>)
    ensures r.Ok? <==> Loaded(world, file).Some?
    ensures r.Ok? ==> Some(r.value) == Loaded(world, file)
    ensures r.Ok? ==> LoadsAs(world, file, r.value)
    ensures r == Err(BadFile) <==> file.Unreadable?
    ensures forall v :: r == Err(UnsupportedVersion(v)) <==>
                          file.Versioned? && file.state.version == v && v != 1 && v != 2
    ensures r.Err? && r.error.Unauthorized? ==>
              Decoded(world, file).Ok? && A.Justified(Decoded(world, file).value, r.error.authority)
  {
    var s;
    match file {
      case Missing =>
        EmptyIsAcceptable();
        return Ok(EMPTY);
      case Unreadable =>
        return Err(BadFile);
      case Legacy(rows) =>
        var migrated := Migrate(world, rows);
        s := Normalized(State(VERSION, migrated, map[], 0, map[], map[]));
      case Versioned(state) =>
        if state.version == 1 {
          var migrated := Migrate(world, state.sessions);
          s := state.(version := VERSION, dormant := map[], sessions := migrated);
        } else if state.version == VERSION {
          s := state;
        } else {
          return Err(UnsupportedVersion(state.version));
        }
    }
    var unauthorized := A.ValidateSessionAuthority(s);
    if unauthorized.Some? {
      return Err(Unauthorized(unauthorized.value));
    }
    var incoherent := A.CheckLeases(s.leases);
    if incoherent.Some? {
      return Err(Incoherent(incoherent.value));
    }
    return Ok(Normalized(s));
  }

  lemma EmptyIsAcceptable()
    ensures Acceptable(EMPTY) && Normalized(EMPTY) == EMPTY
  {
    assert AllClaims(EMPTY) == {};
    assert LiveIncarnations(EMPTY) == {} && DormantIncarnations(EMPTY) == {} && AllLeaseIncarnations(EMPTY) == {};
  }

  // The checks do not look at the mark, so normalizing changes no verdict.
  lemma NormalizedIsAcceptable(s: State)
    ensures Acceptable(Normalized(s)) <==> Acceptable(s)
  {
    assert AllClaims(Normalized(s)) == AllClaims(s);
  }

  // A state is what loading gives back exactly when it is current, acceptable
  // and normalized.
  lemma FixedPoints(world: World, s: State)
    ensures Loaded(world, Save(s)) == Some(s) <==> s.version == VERSION && Acceptable(s) && Normalized(s) == s
  {
  }

  lemma LoadedIsFixed(world: World, file: File)
    requires Loaded(world, file).Some?
    ensures var s := Loaded(world, file).value;
            s.version == VERSION && Acceptable(s) && Normalized(s) == s
  {
    var decoded := Decoded(world, file).value;
    DecodedIsCurrent(world, file);
    NormalizedIsAcceptable(decoded);
    NormalizeTwice(decoded);
  }

  lemma DecodedIsCurrent(world: World, file: File)
    ensures Decoded(world, file).Ok? ==> Decoded(world, file).value.version == VERSION
  {
  }

  // Save and load undo each other: whatever loads, from any of the file
  // formats, is written back as a file that loads as the very same state, on
  // any later state of the file system.
  lemma LoadSaveLoad(world: World, file: File, later: World)
    requires Loaded(world, file).Some?
    ensures Loaded(later, Save(Loaded(world, file).value)) == Loaded(world, file)
  {
    LoadedIsFixed(world, file);
    FixedPoints(later, Loaded(world, file).value);
  }
}
