// The obligation ledger over whole runs: sends in flight, renames of sessions,
// saves, and restarts of the daemon that load what was saved. An obligation is
// followed backwards under the names its owner had, and from memory to disk
// where it was loaded from there.

module ObligationRuns {
  import opened Options
  import opened Entries
  import opened SendState
  import opened SendLedger

  // disk: the obligations last saved.
  datatype World = World(sys: Sys, disk: Pending)

  datatype Act =
    | Work(step: Step)
    | Rename(from: string, to: string)
    | Save
    | Reload(wireSeq: nat, sessions: map<string, Session>, aliases: map<string, string>)

  // ----- renaming a session -----

  predicate CanRename(s: Proto, from: string, to: string) {
    from in s.sessions && s.sessions[from].origin.Local? && to !in s.sessions
  }

  // The bucket goes with the name and replaces one that is there.
  function MovedBucket(p: Pending, from: string, to: string): Pending {
    if from in p then (p - {from})[to := p[from]] else p
  }

  // Chains of aliases collapse, and one that would point to itself goes.
  function Aliased(aliases: map<string, string>, from: string, to: string): map<string, string> {
    var repointed := map k | k in aliases && k != to :: if aliases[k] == from then to else aliases[k];
    var all := repointed[from := to];
    map k | k in all && all[k] != k :: all[k]
  }

  function Renamed(s: Proto, from: string, to: string): Proto
    requires CanRename(s, from, to)
  {
    Proto(s.wireSeq + 1,
          (s.sessions - {from})[to := s.sessions[from]],
          Aliased(s.aliases, from, to),
          MovedBucket(s.pending, from, to))
  }

  // ----- steps -----

  predicate Possible(w: World, act: Act) {
    match act
    case Work(step) => Enabled(w.sys, step)
    case Rename(from, to) => CanRename(w.sys.proto, from, to)
    case Save => true
    case Reload(_, _, _) => true
  }

  // Sends in flight die with the daemon; what sessions owe that are gone is dropped.
  function Restarted(w: World, act: Act): Sys
    requires act.Reload?
  {
    var pending := map o | o in w.disk && o in act.sessions :: w.disk[o];
    Sys(Proto(act.wireSeq, act.sessions, act.aliases, pending), map[])
  }

  ghost function Then(w: World, act: Act): World
    requires Possible(w, act)
  {
    match act
    case Work(step) => w.(sys := Next(w.sys, step))
    case Rename(from, to) => w.(sys := w.sys.(proto := Renamed(w.sys.proto, from, to)))
    case Save => w.(disk := w.sys.proto.pending)
    case Reload(_, _, _) => w.(sys := Restarted(w, act))
  }

  // ----- the ledger of memory and disk -----

  datatype Line = Line(onDisk: bool, o: Obligation)

  ghost predicate Stands(w: World, line: Line) {
    Open(if line.onDisk then w.disk else w.sys.proto.pending, line.o)
  }

  // The line that a step carried forward to this one, if there is one.
  function Before(w: World, act: Act, line: Line): Option<Line> {
    match act
    case Work(_) => Some(line)
    case Rename(from, to) =>
      if line.onDisk || from !in w.sys.proto.pending then Some(line)
      else if line.o.owner == to then Some(line.(o := line.o.(owner := from)))
      else if line.o.owner == from then None
      else Some(line)
    case Save => Some(Line(false, line.o))
    case Reload(_, sessions, _) =>
      if line.onDisk || line.o.owner in sessions then Some(Line(true, line.o)) else None
  }

  ghost predicate Opens(w: World, act: Act, line: Line) {
    act.Work? && !line.onDisk && Creates(w.sys, act.step, line.o)
  }

  ghost predicate Closes(w: World, act: Act, line: Line) {
    act.Work? && !line.onDisk && Discharges(w.sys, act.step, line.o)
  }

  ghost predicate Sound(w: World) {
    Inv(w.sys) && AllDistinct(w.disk)
  }

  ghost predicate Carried(w: World, act: Act, line: Line) {
    var before := Before(w, act, line);
    before.Some? && Stands(w, before.value) && !Closes(w, act, before.value)
  }

  // Every act keeps the invariant, and a line stands after it exactly when the
  // act opened it, or carried it forward and did not close it.
  lemma ActMovesLedger(w: World, act: Act, line: Line)
    requires Sound(w) && Possible(w, act)
    ensures Sound(Then(w, act))
    ensures Stands(Then(w, act), line) <==> Opens(w, act, line) || Carried(w, act, line)
  {
    match act
    case Work(step) => StepLedger(w.sys, step);
    case Rename(from, to) => RenameMovesLedger(w, act, line);
    case Save =>
    case Reload(_, _, _) =>
  }

  lemma RenameMovesLedger(w: World, act: Act, line: Line)
    requires Sound(w) && Possible(w, act) && act.Rename?
    ensures Sound(Then(w, act))
    ensures Stands(Then(w, act), line) <==> Carried(w, act, line)
  {
    var p := w.sys.proto.pending;
    assert Bucket(MovedBucket(p, act.from, act.to), act.to) == if act.from in p then p[act.from] else Bucket(p, act.to);
  }

  // ----- whole runs -----

  // The world after the first n acts of a run.
  ghost function At(w: World, acts: seq<Act>, n: nat): World
    requires n <= |acts|
  {
    if n == 0 then w
    else
      var before := At(w, acts, n - 1);
      if Possible(before, acts[n - 1]) then Then(before, acts[n - 1]) else before
  }

  ghost predicate PossibleAt(w: World, acts: seq<Act>, n: nat)
    requires n < |acts|
  {
    Possible(At(w, acts, n), acts[n])
  }

  ghost predicate Valid(w: World, acts: seq<Act>) {
    forall n :: 0 <= n < |acts| ==> PossibleAt(w, acts, n)
  }

  // The line was there before the run, or the k-th act opened it.
  ghost predicate BornAt(w: World, acts: seq<Act>, k: nat, line: Line)
    requires k <= |acts|
  {
    if k == 0 then Stands(w, line) else Opens(At(w, acts, k - 1), acts[k - 1], line)
  }

  // What the line at n was at k, under the name and in the place it had then.
  ghost function Past(w: World, acts: seq<Act>, k: nat, n: nat, line: Line): Option<Line>
    requires k <= n <= |acts|
  {
    if k == n then Some(line)
    else
      var before := Before(At(w, acts, n - 1), acts[n - 1], line);
      if before.None? then None else Past(w, acts, k, n - 1, before.value)
  }

  ghost predicate ClosedAt(w: World, acts: seq<Act>, j: nat, line: Line)
    requires j < |acts|
  {
    Closes(At(w, acts, j), acts[j], line)
  }

  // The k-th act opened what is this line at n, and no act since closed it.
  ghost predicate Kept(w: World, acts: seq<Act>, k: nat, n: nat, line: Line)
    requires k <= n <= |acts|
  {
    && Past(w, acts, k, n, line).Some?
    && BornAt(w, acts, k, Past(w, acts, k, n, line).value)
    && NeverLost(w, acts, k, n, line)
  }

  ghost predicate NeverLost(w: World, acts: seq<Act>, k: nat, n: nat, line: Line)
    requires k <= n <= |acts|
  {
    forall j :: k <= j < n ==> !Lost(w, acts, j, n, line)
  }

  ghost predicate Lost(w: World, acts: seq<Act>, j: nat, n: nat, line: Line)
    requires j < n <= |acts|
  {
    var former := Past(w, acts, j, n, line);
    former.Some? && ClosedAt(w, acts, j, former.value)
  }

  ghost predicate Outstanding(w: World, acts: seq<Act>, n: nat, line: Line)
    requires n <= |acts|
  {
    exists k :: 0 <= k <= n && Kept(w, acts, k, n, line)
  }

  // m acts and one more.
  lemma OneActBack(w: World, acts: seq<Act>, k: nat, m: nat, line: Line, before: Option<Line>)
    requires k <= m < |acts| && before == Before(At(w, acts, m), acts[m], line)
    ensures Kept(w, acts, k, m + 1, line) <==>
            before.Some? && !ClosedAt(w, acts, m, before.value) && Kept(w, acts, k, m, before.value)
  {
    var n := m + 1;
    if before.Some? {
      assert Past(w, acts, k, n, line) == Past(w, acts, k, m, before.value);
      assert Past(w, acts, m, n, line) == Past(w, acts, m, m, before.value) == before;
      assert Lost(w, acts, m, n, line) <==> ClosedAt(w, acts, m, before.value);
      forall j | k <= j < m
        ensures Lost(w, acts, j, n, line) <==> Lost(w, acts, j, m, before.value)
      {
        assert Past(w, acts, j, n, line) == Past(w, acts, j, m, before.value);
      }
    }
  }

  lemma LastAct(w: World, acts: seq<Act>, m: nat, line: Line, before: Option<Line>)
    requires m < |acts| && before == Before(At(w, acts, m), acts[m], line)
    ensures Outstanding(w, acts, m + 1, line) <==>
            || BornAt(w, acts, m + 1, line)
            || (before.Some? && !ClosedAt(w, acts, m, before.value) && Outstanding(w, acts, m, before.value))
  {
    var n := m + 1;
    assert Kept(w, acts, n, n, line) <==> BornAt(w, acts, n, line);
    forall k | 0 <= k <= m
      ensures Kept(w, acts, k, n, line) <==>
              before.Some? && !ClosedAt(w, acts, m, before.value) && Kept(w, acts, k, m, before.value)
    {
      OneActBack(w, acts, k, m, line, before);
    }
    if before.Some? && !ClosedAt(w, acts, m, before.value) && Outstanding(w, acts, m, before.value) {
      var k :| 0 <= k <= m && Kept(w, acts, k, m, before.value);
      assert Kept(w, acts, k, n, line);
    }
  }

  lemma {:induction false} LedgerUpTo(w: World, acts: seq<Act>, n: nat, line: Line)
    requires Sound(w) && Valid(w, acts) && n <= |acts|
    ensures Sound(At(w, acts, n))
    ensures Stands(At(w, acts, n), line) <==> Outstanding(w, acts, n, line)
  {
    if n == 0 {
      assert Kept(w, acts, 0, 0, line) <==> Stands(w, line);
    } else {
      var last, act := At(w, acts, n - 1), acts[n - 1];
      var before := Before(last, act, line);
      LedgerUpTo(w, acts, n - 1, if before.Some? then before.value else line);
      assert PossibleAt(w, acts, n - 1);
      ActMovesLedger(last, act, line);
      LastAct(w, acts, n - 1, line, before);
    }
  }

  // The ledger over every run: a session owes an answer at the end exactly
  // when it owed it at the start or some ask created it, whatever the session
  // was called then, and nothing since discharged it: neither before the last
  // save that was loaded, nor since.
  lemma LedgerIsExact(w: World, acts: seq<Act>, o: Obligation)
    requires Sound(w) && Valid(w, acts)
    ensures Sound(At(w, acts, |acts|))
    ensures Open(At(w, acts, |acts|).sys.proto.pending, o) <==> Outstanding(w, acts, |acts|, Line(false, o))
  {
    LedgerUpTo(w, acts, |acts|, Line(false, o));
  }

  // In particular what some act discharged, such as the delivery of a final
  // reply, stays discharged through every rename unless it is asked again, or
  // loaded from a save made before.
  lemma DischargedStaysAway(w: World, acts: seq<Act>, j: nat, o: Obligation)
    requires Sound(w) && Valid(w, acts) && j < |acts|
    requires Lost(w, acts, j, |acts|, Line(false, o))
    requires forall k :: j < k <= |acts| ==> !Asked(w, acts, k, Line(false, o))
    ensures !Open(At(w, acts, |acts|).sys.proto.pending, o)
  {
    LedgerIsExact(w, acts, o);
    forall k | 0 <= k <= |acts|
      ensures !Kept(w, acts, k, |acts|, Line(false, o))
    {
      assert k > j ==> !Asked(w, acts, k, Line(false, o));
    }
  }

  // The k-th act opened what is this line at the end.
  ghost predicate Asked(w: World, acts: seq<Act>, k: nat, line: Line)
    requires k <= |acts|
  {
    var former := Past(w, acts, k, |acts|, line);
    former.Some? && BornAt(w, acts, k, former.value)
  }

  // ----- a rename while the reply is on its way -----

  // Finalizing goes by the name the sender had when the send began. Whatever
  // happened since, once the sender has been renamed it discharges nothing of
  // the bucket that moved: what was owed under the old name is owed under the
  // new one after delivery, the answered obligation included.
  lemma RenamedSenderStillOwes(s: Proto, req: Request, now: int, later: Proto, to: string, id: nat, asker: string)
    requires CanRename(later, req.from, to)
    ensures var rb := Begin(s, req, now).1;
            var owner := if req.from in later.pending then req.from else to;
            Open(Finalize(Renamed(later, req.from, to), rb).pending, Obligation(to, id, asker)) <==>
            Open(later.pending, Obligation(owner, id, asker))
  {
    var renamed := Renamed(later, req.from, to);
    assert Bucket(Finalize(renamed, Begin(s, req, now).1).pending, to) == Bucket(renamed.pending, to);
  }

  // So over every run, when a final reply is delivered, an obligation with the
  // answered id that still stands is discharged exactly when its owner has the
  // name the reply was sent under: never renamed, or renamed and renamed back.
  lemma NameDecidesDischarge(w: World, acts: seq<Act>, tx: nat, o: Obligation)
    requires Sound(w) && Valid(w, acts)
    requires Possible(At(w, acts, |acts|), Work(Deliver(tx)))
    requires var flight := At(w, acts, |acts|).sys.flights[tx];
             flight.req.done && flight.owed && flight.req.respondsTo == Some(o.msgId)
    requires Open(At(w, acts, |acts|).sys.proto.pending, o)
    ensures var last := At(w, acts, |acts|);
            Open(Then(last, Work(Deliver(tx))).sys.proto.pending, o) <==> o.owner != last.sys.flights[tx].req.from
  {
    LedgerIsExact(w, acts, o);
    ActMovesLedger(At(w, acts, |acts|), Work(Deliver(tx)), Line(false, o));
  }

  // The sender renamed away and back in between: the reply discharges after all.
  lemma RenamedBackDischarges(w: World, tx: nat, o: Obligation, to: string)
    requires Sound(w) && Possible(w, Work(Deliver(tx)))
    requires var flight := w.sys.flights[tx];
             flight.req.done && flight.owed && flight.req.respondsTo == Some(o.msgId) && flight.req.from == o.owner
    requires Open(w.sys.proto.pending, o) && CanRename(w.sys.proto, o.owner, to)
    ensures var acts := [Rename(o.owner, to), Rename(to, o.owner)];
            && Valid(w, acts)
            && var last := At(w, acts, 2);
               && Open(last.sys.proto.pending, o)
               && Possible(last, Work(Deliver(tx)))
               && !Open(Then(last, Work(Deliver(tx))).sys.proto.pending, o)
  {
    var away, back := Rename(o.owner, to), Rename(to, o.owner);
    var acts := [away, back];
    var once := Then(w, away);
    assert At(w, acts, 0) == w && At(w, acts, 1) == once;
    assert PossibleAt(w, acts, 0) && PossibleAt(w, acts, 1);
    var twice := Then(once, back);
    assert At(w, acts, 2) == twice;
    ActMovesLedger(w, away, Line(false, o.(owner := to)));
    ActMovesLedger(once, back, Line(false, o));
    NameDecidesDischarge(w, acts, tx, o);
  }

  // ----- what a restart keeps -----

  // From every world, a daemon that dies right after a save owes afterwards what
  // it owed before, for every session that comes back; sends in flight are gone.
  lemma SavedObligationsSurvive(
      w: World, wireSeq: nat, sessions: map<string, Session>, aliases: map<string, string>, o: Obligation)
    ensures var reload := Reload(wireSeq, sessions, aliases);
            && Possible(w, Save) && Possible(Then(w, Save), reload)
            && var back := Then(Then(w, Save), reload).sys;
               && (Open(back.proto.pending, o) <==> Open(w.sys.proto.pending, o) && o.owner in sessions)
               && back.flights == map[]
               && back.proto.sessions == sessions && back.proto.aliases == aliases && back.proto.wireSeq == wireSeq
  {
  }

  // ----- names that have moved -----

  // A message to a name that is not in use fails, with the present name of the
  // session as a hint if it has been renamed. A rename makes its old name, and
  // every name that led to either of its two, lead to the new one, and leaves
  // every other hint as it was.
  lemma RenameMovesHints(s: Proto, from: string, to: string, req: Request)
    requires CanRename(s, from, to) && req.to !in Renamed(s, from, to).sessions
    ensures SendEffects(Renamed(s, from, to), req) ==
            if req.to == from || (req.to in s.aliases && s.aliases[req.to] in {from, to})
            then [SendFailed(Some(to))] else SendEffects(s, req)
  {
  }

  predicate CanChain(s: Proto, names: seq<string>)
    decreases |names|
  {
    |names| <= 1 || (CanRename(s, names[0], names[1]) && CanChain(Renamed(s, names[0], names[1]), names[1..]))
  }

  function Chained(s: Proto, names: seq<string>): Proto
    requires CanChain(s, names)
    decreases |names|
  {
    if |names| <= 1 then s else Chained(Renamed(s, names[0], names[1]), names[1..])
  }

  lemma {:induction false} HintFollows(s: Proto, names: seq<string>, req: Request)
    requires CanChain(s, names) && names != []
    requires req.to !in s.sessions && req.to !in names && names[0] in s.sessions
    requires req.to in s.aliases && s.aliases[req.to] == names[0]
    ensures SendEffects(Chained(s, names), req) == [SendFailed(Some(names[|names| - 1]))]
    decreases |names|
  {
    if |names| > 1 {
      HintFollows(Renamed(s, names[0], names[1]), names[1..], req);
    }
  }

  predicate Different(names: seq<string>) {
    forall i, j :: 0 <= i < j < |names| ==> names[i] != names[j]
  }

  // Over any chain of renames, whoever writes to one of the names a session had
  // is told the name it has now.
  lemma {:induction false} EveryNameIsHinted(s: Proto, names: seq<string>, i: nat, req: Request)
    requires CanChain(s, names) && Different(names) && i + 1 < |names| && req.to == names[i]
    ensures SendEffects(Chained(s, names), req) == [SendFailed(Some(names[|names| - 1]))]
    decreases |names|
  {
    var once := Renamed(s, names[0], names[1]);
    if i == 0 {
      assert forall k :: 0 <= k < |names[1..]| ==> names[1..][k] == names[k + 1];
      HintFollows(once, names[1..], req);
    } else {
      assert forall k :: 0 <= k < |names[1..]| ==> names[1..][k] == names[k + 1];
      EveryNameIsHinted(once, names[1..], i - 1, req);
    }
  }
}
