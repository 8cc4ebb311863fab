// Steps of the daemon with any number of sends in flight at once. Each region
// under the protocol lock is one step. Every step moves an exact ledger: which
// reply obligations are outstanding is decided by who asked and who discharged,
// never by how the locks of a send interleave with other work.

module SendLedger {
  import opened Options
  import opened Entries
  import opened SendState

  // owner owes asker an answer to msgId.
  datatype Obligation = Obligation(owner: string, msgId: nat, asker: string)

  datatype Phase = Delivering | Restoring

  // owed: whether, when the send began, its sender owed an answer to the
  // message it responds to.
  datatype Flight = Flight(req: Request, fx: seq<Effect>, rb: Rollback, phase: Phase, owed: bool)

  datatype Sys = Sys(proto: Proto, flights: map<nat, Flight>)

  datatype Step =
    | Send(tx: nat, req: Request, now: int)
    | Deliver(tx: nat)                                // accepted, queued or ambiguous: one lock
    | Reject(tx: nat)                                 // rejected or failed: the first lock of the rollback
    | Restore(tx: nat)                                // the second lock of the rollback
    | ClearFrom(owner: string, asker: string)         // an explicit clear-reply call
    | Forget(ids: set<string>)                        // sessions were removed
    | RemoteReply(owner: string, id: nat, asker: string, final: bool, now: int)
    | RemoteAsk(owner: string, entry: Entry)
    | Touch(owner: string, id: nat, lastActivity: int, inProgress: bool)
    | Elsewhere(wireSeq: nat, sessions: map<string, Session>, aliases: map<string, string>)

  // ----- the other events that write obligations -----

  function ClearedFrom(p: Pending, owner: string, asker: string): Pending {
    if owner in p then Store(p, owner, WithoutAsker(p[owner], asker)) else p
  }

  function Forgotten(p: Pending, ids: set<string>): Pending {
    map o | o in p && o !in ids && WithoutAskers(p[o], ids) != [] :: WithoutAskers(p[o], ids)
  }

  function WithoutAskers(es: seq<Entry>, ids: set<string>): (r: seq<Entry>)
    ensures forall e :: e in r <==> e in es && e.from !in ids
  {
    Retain(es, (e: Entry) => e.from !in ids)
  }

  function RemotelyReplied(p: Pending, owner: string, id: nat, asker: string, final: bool, now: int): Pending {
    if owner !in p then p
    else if final then Store(p, owner, WithoutReply(p[owner], id, asker))
    else p[owner := MarkProgress(p[owner], id, asker, now)]
  }

  function Touched(p: Pending, owner: string, id: nat, lastActivity: int, inProgress: bool): Pending {
    var found := Find(Bucket(p, owner), id);
    if found.None? then p
    else p[owner := PutBack(p[owner], found.value.(lastActivity := lastActivity, inProgress := inProgress))]
  }

  // ----- steps -----

  // Message ids are unique, so the one a send draws is new to the recipient's
  // bucket and the one a remote ask carries is new to its own.
  predicate Enabled(sys: Sys, step: Step) {
    match step
    case Send(tx, req, _) =>
      && tx !in sys.flights
      && req.from != req.to
      && Find(Bucket(sys.proto.pending, req.to), sys.proto.wireSeq + 1).None?
    case Deliver(tx) => tx in sys.flights && sys.flights[tx].phase.Delivering? && DeliveredTo(sys.flights[tx].fx).Some?
    case Reject(tx) => tx in sys.flights && sys.flights[tx].phase.Delivering?
    case Restore(tx) => tx in sys.flights && sys.flights[tx].phase.Restoring?
    case RemoteAsk(owner, entry) => Find(Bucket(sys.proto.pending, owner), entry.msgId).None?
    case Elsewhere(wireSeq, _, _) => sys.proto.wireSeq <= wireSeq
    case _ => true
  }

  ghost function Next(sys: Sys, step: Step): Sys
    requires Enabled(sys, step)
  {
    var s := sys.proto;
    match step
    case Send(tx, req, now) =>
      var (begun, rb) := Begin(s, req, now);
      Sys(begun, sys.flights[tx := Flight(req, SendEffects(s, req), rb, Delivering, Owes(s.pending, req))])
    case Deliver(tx) =>
      Sys(Finalize(s, sys.flights[tx].rb), sys.flights - {tx})
    case Reject(tx) =>
      Sys(ClearRecipient(s, sys.flights[tx].fx), sys.flights[tx := sys.flights[tx].(phase := Restoring)])
    case Restore(tx) =>
      Sys(RestoreSender(s, sys.flights[tx].rb), sys.flights - {tx})
    case ClearFrom(owner, asker) =>
      sys.(proto := s.(pending := ClearedFrom(s.pending, owner, asker)))
    case Forget(ids) =>
      sys.(proto := s.(pending := Forgotten(s.pending, ids)))
    case RemoteReply(owner, id, asker, final, now) =>
      sys.(proto := s.(pending := RemotelyReplied(s.pending, owner, id, asker, final, now)))
    case RemoteAsk(owner, entry) =>
      sys.(proto := s.(pending := Store(s.pending, owner, Bucket(s.pending, owner) + [entry])))
    case Touch(owner, id, lastActivity, inProgress) =>
      sys.(proto := s.(pending := Touched(s.pending, owner, id, lastActivity, inProgress)))
    case Elsewhere(wireSeq, sessions, aliases) =>
      sys.(proto := Proto(wireSeq, sessions, aliases, s.pending))
  }

  // ----- the ledger -----

  ghost predicate Has(es: seq<Entry>, id: nat, asker: string) {
    exists e :: e in es && IsReplyTo(e, id, asker)
  }

  ghost predicate Open(p: Pending, o: Obligation) {
    Has(Bucket(p, o.owner), o.msgId, o.asker)
  }

  // The sender owes somebody an answer to the message it responds to.
  ghost predicate Owes(p: Pending, req: Request) {
    req.respondsTo.Some? && exists asker :: Open(p, Obligation(req.from, req.respondsTo.value, asker))
  }

  // An ask that reached a local session, or one that arrived over the wire.
  ghost predicate Creates(sys: Sys, step: Step, o: Obligation) {
    match step
    case Send(_, req, _) => OwesReply(sys.proto, req) && o == Obligation(req.to, sys.proto.wireSeq + 1, req.from)
    case RemoteAsk(owner, entry) => o == Obligation(owner, entry.msgId, entry.from)
    case _ => false
  }

  // A final reply discharges when it is delivered, and only then; a rejected
  // ask withdraws its own obligation; a clear and a removal discharge what they name.
  ghost predicate Discharges(sys: Sys, step: Step, o: Obligation) {
    match step
    case Deliver(tx) =>
      && tx in sys.flights
      && sys.flights[tx].req.done
      && sys.flights[tx].owed
      && sys.flights[tx].req.from == o.owner
      && sys.flights[tx].req.respondsTo == Some(o.msgId)
    case Reject(tx) =>
      && tx in sys.flights
      && DeliveredTo(sys.flights[tx].fx) == Some((o.owner, o.msgId, o.asker))
    case ClearFrom(owner, asker) => o.owner == owner && o.asker == asker
    case Forget(ids) => o.owner in ids || o.asker in ids
    case RemoteReply(owner, id, asker, final, _) => final && o == Obligation(owner, id, asker)
    case _ => false
  }

  // ----- invariant -----

  ghost predicate FlightOk(flight: Flight) {
    var rb := flight.rb;
    && rb.senderId == flight.req.from
    && rb.done == flight.req.done
    && (rb.before.Some? <==> flight.owed)
    && (rb.before.Some? ==> flight.req.respondsTo == Some(rb.before.value.msgId))
    && (rb.before.Some? && !rb.reserved ==>
          && rb.after.Some?
          && rb.after.value.Some?
          && IsReplyTo(rb.after.value.value, rb.before.value.msgId, rb.before.value.from))
  }

  ghost predicate Inv(sys: Sys) {
    && AllDistinct(sys.proto.pending)
    && (forall tx :: tx in sys.flights ==> FlightOk(sys.flights[tx]))
  }

  ghost predicate SameShape(a: seq<Entry>, b: seq<Entry>) {
    && |a| == |b|
    && (forall i :: 0 <= i < |a| ==> a[i].msgId == b[i].msgId && a[i].from == b[i].from)
  }

  lemma ShapeDecides(a: seq<Entry>, b: seq<Entry>)
    requires SameShape(a, b)
    ensures DistinctIds(a) <==> DistinctIds(b)
    ensures forall id, asker :: Has(a, id, asker) <==> Has(b, id, asker)
  {
    forall id, asker
      ensures Has(a, id, asker) <==> Has(b, id, asker)
    {
      if Has(a, id, asker) {
        var i :| 0 <= i < |a| && IsReplyTo(a[i], id, asker);
        assert b[i] in b && IsReplyTo(b[i], id, asker);
      }
      if Has(b, id, asker) {
        var i :| 0 <= i < |b| && IsReplyTo(b[i], id, asker);
        assert a[i] in a && IsReplyTo(a[i], id, asker);
      }
    }
  }

  lemma AppendEntry(es: seq<Entry>, entry: Entry)
    requires DistinctIds(es) && Find(es, entry.msgId).None?
    ensures DistinctIds(es + [entry])
    ensures forall id, asker :: Has(es + [entry], id, asker) <==> Has(es, id, asker) || IsReplyTo(entry, id, asker)
  {
    forall id, asker
      ensures Has(es + [entry], id, asker) <==> Has(es, id, asker) || IsReplyTo(entry, id, asker)
    {
      assert forall e :: e in es + [entry] <==> e in es || e == entry;
    }
  }

  // Among distinct ids, one entry carries the id.
  lemma OnlyOne(es: seq<Entry>, a: Entry, b: Entry)
    requires DistinctIds(es) && a in es && b in es && a.msgId == b.msgId
    ensures a == b
  {
    var i :| 0 <= i < |es| && es[i] == a;
    var j :| 0 <= j < |es| && es[j] == b;
    assert !(i < j) && !(j < i);
  }

  // The sender's side of Begin in terms of its bucket: it keeps its shape or,
  // for a final reply, has the captured entry moved to the end.
  lemma RepliedBucket(es: seq<Entry>, id: nat, asker: string)
    requires DistinctIds(es)
    ensures Find(es, id).None? ==> WithoutReply(es, id, asker) == es
    ensures Find(es, id).Some? && Find(es, id).value.from != asker ==>
              WithoutReply(es, id, asker) == es
    ensures Find(es, id).Some? && Find(es, id).value.from == asker ==>
              && Find(WithoutReply(es, id, asker), id).None?
              && DistinctIds(WithoutReply(es, id, asker))
              && (forall k, a :: Has(WithoutReply(es, id, asker), k, a) || IsReplyTo(Find(es, id).value, k, a) <==>
                                 Has(es, k, a))
  {
    var found := Find(es, id);
    if found.Some? {
      forall e | e in es && e.msgId == id
        ensures e == found.value
      {
        OnlyOne(es, e, found.value);
      }
    }
    if found.None? || found.value.from != asker {
      RetainAll(es, (e: Entry) => !IsReplyTo(e, id, asker));
    } else {
      RetainDistinct(es, (e: Entry) => !IsReplyTo(e, id, asker));
      RemovedMembers(es, WithoutReply(es, id, asker), found.value);
    }
  }

  lemma RemovedMembers(es: seq<Entry>, rest: seq<Entry>, gone: Entry)
    requires gone in es
    requires forall e :: e in es <==> e in rest || e == gone
    ensures forall k, a :: Has(rest, k, a) || IsReplyTo(gone, k, a) <==> Has(es, k, a)
  {
  }

  lemma BegunSender(s: Proto, req: Request, now: int)
    requires AllDistinct(s.pending) && req.from != req.to
    ensures var es := Bucket(s.pending, req.from);
            var after := Bucket(Begin(s, req, now).0.pending, req.from);
            && DistinctIds(after)
            && (forall id, asker :: Has(after, id, asker) <==> Has(es, id, asker))
  {
    SenderAfterApply(s, req, now);
    BegunSenderBucket(s, req, now);
    if req.respondsTo.Some? {
      RepliedKeepsLedger(Bucket(s.pending, req.from), req.respondsTo.value, req.to, req.done, now);
    }
  }

  lemma RepliedKeepsLedger(es: seq<Entry>, id: nat, asker: string, final: bool, now: int)
    requires DistinctIds(es)
    ensures var applied := if final then WithoutReply(es, id, asker) else MarkProgress(es, id, asker, now);
            var moved := final && Find(es, id).Some? && Find(applied, id).None?;
            var after := if moved then applied + [Find(es, id).value] else applied;
            && DistinctIds(after)
            && (forall k, a :: Has(after, k, a) <==> Has(es, k, a))
  {
    if final {
      RepliedBucket(es, id, asker);
      if Find(es, id).Some? && Find(es, id).value.from == asker {
        AppendEntry(WithoutReply(es, id, asker), Find(es, id).value);
      }
    } else {
      ShapeDecides(es, MarkProgress(es, id, asker, now));
    }
  }

  // The capture finds an entry exactly when the sender owes an answer.
  lemma CaptureTellsDebt(s: Proto, req: Request)
    ensures Capture(s, req).before.Some? <==> Owes(s.pending, req)
  {
    if Capture(s, req).before.Some? {
      var entry := Capture(s, req).before.value;
      assert IsReplyTo(entry, req.respondsTo.value, entry.from);
      assert Open(s.pending, Obligation(req.from, req.respondsTo.value, entry.from));
    }
  }

  lemma BegunFlight(s: Proto, req: Request, now: int)
    requires AllDistinct(s.pending) && req.from != req.to
    ensures FlightOk(Flight(req, SendEffects(s, req), Begin(s, req, now).1, Delivering, Owes(s.pending, req)))
  {
    var es := Bucket(s.pending, req.from);
    SenderAfterApply(s, req, now);
    NothingLeftToAppend(s, req, now);
    CaptureTellsDebt(s, req);
    if req.respondsTo.Some? {
      var id := req.respondsTo.value;
      if req.done {
        RepliedBucket(es, id, req.to);
      } else {
        MarkProgressFind(es, id, req.to, now);
      }
    }
  }

  lemma BegunOthers(s: Proto, req: Request, now: int, owner: string)
    requires AllDistinct(s.pending) && owner != req.from
    requires Find(Bucket(s.pending, req.to), s.wireSeq + 1).None?
    ensures var es := Bucket(s.pending, owner);
            var after := Bucket(Begin(s, req, now).0.pending, owner);
            && DistinctIds(after)
            && (forall id, asker :: Has(after, id, asker) <==>
                  || Has(es, id, asker)
                  || (OwesReply(s, req) && Obligation(owner, id, asker) == Obligation(req.to, s.wireSeq + 1, req.from)))
  {
    BegunOtherBucket(s, req, now, owner);
    var es := Bucket(s.pending, owner);
    if OwesReply(s, req) && owner == req.to {
      AppendEntry(es, AskEntry(req, s.wireSeq + 1, now));
    }
  }

  lemma SendStep(sys: Sys, step: Step)
    requires Inv(sys) && Enabled(sys, step) && step.Send?
    ensures Inv(Next(sys, step))
    ensures forall o :: Open(Next(sys, step).proto.pending, o) <==>
                        Creates(sys, step, o) || (Open(sys.proto.pending, o) && !Discharges(sys, step, o))
  {
    var s, req, now := sys.proto, step.req, step.now;
    var begun := Begin(s, req, now).0;
    BegunFlight(s, req, now);
    BegunSender(s, req, now);
    forall owner | owner != req.from
      ensures DistinctIds(Bucket(begun.pending, owner))
      ensures forall id, asker :: Has(Bucket(begun.pending, owner), id, asker) <==>
                Has(Bucket(s.pending, owner), id, asker) ||
                (OwesReply(s, req) && Obligation(owner, id, asker) == Obligation(req.to, s.wireSeq + 1, req.from))
    {
      BegunOthers(s, req, now, owner);
    }
    BucketsDistinct(begun.pending);
  }

  lemma BucketsDistinct(p: Pending)
    requires forall o :: DistinctIds(Bucket(p, o))
    ensures AllDistinct(p)
  {
    forall o | o in p
      ensures DistinctIds(p[o])
    {
      assert Bucket(p, o) == p[o];
    }
  }

  // One bucket is filtered; the rest stay.
  lemma FilterStep(p: Pending, owner: string, keep: Entry -> bool)
    requires AllDistinct(p)
    ensures AllDistinct(Store(p, owner, Retain(Bucket(p, owner), keep)))
  {
    RetainDistinct(Bucket(p, owner), keep);
    BucketsDistinct(Store(p, owner, Retain(Bucket(p, owner), keep)));
  }

  lemma DeliverStep(sys: Sys, step: Step)
    requires Inv(sys) && Enabled(sys, step) && step.Deliver?
    ensures Inv(Next(sys, step))
    ensures forall o :: Open(Next(sys, step).proto.pending, o) <==>
                        Open(sys.proto.pending, o) && !Discharges(sys, step, o)
  {
    var rb := sys.flights[step.tx].rb;
    if rb.before.Some? {
      FilterStep(sys.proto.pending, rb.senderId, (e: Entry) => e.msgId != rb.before.value.msgId);
    }
  }

  lemma RejectStep(sys: Sys, step: Step)
    requires Inv(sys) && Enabled(sys, step) && step.Reject?
    ensures Inv(Next(sys, step))
    ensures forall o :: Open(Next(sys, step).proto.pending, o) <==>
                        Open(sys.proto.pending, o) && !Discharges(sys, step, o)
  {
    var delivered := DeliveredTo(sys.flights[step.tx].fx);
    if delivered.Some? {
      var (to, id, from) := delivered.value;
      FilterStep(sys.proto.pending, to, (e: Entry) => !IsReplyTo(e, id, from));
    }
  }

  lemma RestoreStep(sys: Sys, step: Step)
    requires Inv(sys) && Enabled(sys, step) && step.Restore?
    ensures Inv(Next(sys, step))
    ensures forall o :: Open(Next(sys, step).proto.pending, o) <==> Open(sys.proto.pending, o)
  {
    var s, rb := sys.proto, sys.flights[step.tx].rb;
    var after := RestoreSender(s, rb).pending;
    if !rb.reserved && rb.before.Some? {
      var es := Bucket(s.pending, rb.senderId);
      if rb.after == Some(Find(es, rb.before.value.msgId)) {
        PutBackShape(es, rb.before.value);
        ShapeDecides(es, PutBack(es, rb.before.value));
        BucketsDistinct(after);
      }
    }
  }

  lemma ForgetStep(p: Pending, ids: set<string>)
    requires AllDistinct(p)
    ensures AllDistinct(Forgotten(p, ids))
    ensures forall o :: Open(Forgotten(p, ids), o) <==> Open(p, o) && o.owner !in ids && o.asker !in ids
  {
    forall owner
      ensures Bucket(Forgotten(p, ids), owner) == if owner in ids then [] else WithoutAskers(Bucket(p, owner), ids)
    {
    }
    forall owner | owner in p
      ensures DistinctIds(WithoutAskers(p[owner], ids))
    {
      RetainDistinct(p[owner], (e: Entry) => e.from !in ids);
    }
  }

  lemma TouchStep(p: Pending, owner: string, id: nat, lastActivity: int, inProgress: bool)
    requires AllDistinct(p)
    ensures AllDistinct(Touched(p, owner, id, lastActivity, inProgress))
    ensures forall o :: Open(Touched(p, owner, id, lastActivity, inProgress), o) <==> Open(p, o)
  {
    var es := Bucket(p, owner);
    var found := Find(es, id);
    if found.Some? {
      var entry := found.value.(lastActivity := lastActivity, inProgress := inProgress);
      PutBackShape(es, entry);
      ShapeDecides(es, PutBack(es, entry));
    }
  }

  lemma RemoteReplyStep(p: Pending, owner: string, id: nat, asker: string, final: bool, now: int)
    requires AllDistinct(p)
    ensures AllDistinct(RemotelyReplied(p, owner, id, asker, final, now))
    ensures forall o :: Open(RemotelyReplied(p, owner, id, asker, final, now), o) <==>
                        Open(p, o) && !(final && o == Obligation(owner, id, asker))
  {
    if final {
      FilterStep(p, owner, (e: Entry) => !IsReplyTo(e, id, asker));
    } else {
      ShapeDecides(Bucket(p, owner), MarkProgress(Bucket(p, owner), id, asker, now));
    }
  }

  lemma RemoteAskStep(p: Pending, owner: string, entry: Entry)
    requires AllDistinct(p) && Find(Bucket(p, owner), entry.msgId).None?
    ensures var after := Store(p, owner, Bucket(p, owner) + [entry]);
            && AllDistinct(after)
            && (forall o :: Open(after, o) <==> Open(p, o) || o == Obligation(owner, entry.msgId, entry.from))
  {
    AppendEntry(Bucket(p, owner), entry);
  }

  lemma ClearFromStep(p: Pending, owner: string, asker: string)
    requires AllDistinct(p)
    ensures AllDistinct(ClearedFrom(p, owner, asker))
    ensures forall o :: Open(ClearedFrom(p, owner, asker), o) <==> Open(p, o) && !(o.owner == owner && o.asker == asker)
  {
    FilterStep(p, owner, (e: Entry) => e.from != asker);
  }

  // Every step keeps the invariant and moves the ledger exactly as stated.
  lemma StepLedger(sys: Sys, step: Step)
    requires Inv(sys) && Enabled(sys, step)
    ensures Inv(Next(sys, step))
    ensures forall o :: Open(Next(sys, step).proto.pending, o) <==>
                        Creates(sys, step, o) || (Open(sys.proto.pending, o) && !Discharges(sys, step, o))
  {
    match step
    case Send(_, _, _) => SendStep(sys, step);
    case Deliver(_) => DeliverStep(sys, step);
    case Reject(_) => RejectStep(sys, step);
    case Restore(_) => RestoreStep(sys, step);
    case Forget(ids) => ForgetStep(sys.proto.pending, ids);
    case Touch(owner, id, at, flag) => TouchStep(sys.proto.pending, owner, id, at, flag);
    case RemoteReply(owner, id, asker, final, now) => RemoteReplyStep(sys.proto.pending, owner, id, asker, final, now);
    case RemoteAsk(owner, entry) => RemoteAskStep(sys.proto.pending, owner, entry);
    case ClearFrom(owner, asker) => ClearFromStep(sys.proto.pending, owner, asker);
    case Elsewhere(_, _, _) =>
  }

  // ----- a final reply addressed to somebody else -----

  // Finalizing goes by the captured id alone. With distinct ids, a delivered
  // final reply discharges an obligation to someone other than its addressee
  // exactly when the entry with that id is not the addressee's.
  lemma MisaddressedReplyIff(s: Proto, req: Request, now: int)
    requires AllDistinct(s.pending) && req.from != req.to && req.done && req.respondsTo.Some?
    ensures var id := req.respondsTo.value;
            var found := Find(Bucket(s.pending, req.from), id);
            (exists asker :: asker != req.to && Answered(s, req, now, asker)) <==>
            found.Some? && found.value.from != req.to
  {
    var id := req.respondsTo.value;
    var es := Bucket(s.pending, req.from);
    var found := Find(es, id);
    FinalizedBucket(s, req, now);
    if found.Some? {
      assert IsReplyTo(found.value, id, found.value.from);
      assert Answered(s, req, now, found.value.from);
      forall e | e in es && e.msgId == id
        ensures e == found.value
      {
        OnlyOne(es, e, found.value);
      }
    }
  }

  // The obligation to this asker was open before the send and is not after it.
  ghost predicate Answered(s: Proto, req: Request, now: int, asker: string)
    requires req.respondsTo.Some?
  {
    var o := Obligation(req.from, req.respondsTo.value, asker);
    var (begun, rb) := Begin(s, req, now);
    Open(s.pending, o) && !Open(Finalize(begun, rb).pending, o)
  }

  lemma FinalizedBucket(s: Proto, req: Request, now: int)
    requires AllDistinct(s.pending) && req.from != req.to && req.done && req.respondsTo.Some?
    ensures var id := req.respondsTo.value;
            var (begun, rb) := Begin(s, req, now);
            forall asker :: !Has(Bucket(Finalize(begun, rb).pending, req.from), id, asker)
  {
    var (begun, rb) := Begin(s, req, now);
    SenderAfterApply(s, req, now);
    BegunSenderBucket(s, req, now);
    RepliedBucket(Bucket(s.pending, req.from), req.respondsTo.value, req.to);
  }

  // For instance w owes an answer to 7 to a, and tells b that 7 is done.
  lemma MisaddressedReplyDischarges()
    ensures var asked := Entry(7, "a", "", 0, 0, false);
            var s := Proto(9, map[], map[], map["w" := [asked]]);
            var req := Request("w", "b", "done", false, Some(7), true);
            var (begun, rb) := Begin(s, req, 1);
            && Open(s.pending, Obligation("w", 7, "a"))
            && !Open(Finalize(begun, rb).pending, Obligation("w", 7, "a"))
  {
    var asked := Entry(7, "a", "", 0, 0, false);
    var s := Proto(9, map[], map[], map["w" := [asked]]);
    var req := Request("w", "b", "done", false, Some(7), true);
    assert asked in Bucket(s.pending, "w") && IsReplyTo(asked, 7, "a");
    FinalizedBucket(s, req, 1);
  }

  // ----- every send ends once -----

  // A send that was routed can be delivered, and any can be rejected; one that
  // was not routed can only be rejected.
  lemma SendCanEnd(sys: Sys, tx: nat, req: Request, now: int)
    requires Enabled(sys, Send(tx, req, now))
    ensures var sent := Next(sys, Send(tx, req, now));
            && Enabled(sent, Reject(tx)) && !Enabled(sent, Restore(tx))
            && (Enabled(sent, Deliver(tx)) <==> Routed(sys.proto, req))
            && !Enabled(sent, Send(tx, req, now))
  {
    SendReports(sys.proto, req);
  }

  // A delivery ends it, and so do the two locks of a rollback, in their order;
  // other sends go on as they were.
  lemma SendEndsOnce(sys: Sys, tx: nat, other: nat)
    requires other != tx
    ensures Enabled(sys, Deliver(tx)) ==>
              var after := Next(sys, Deliver(tx));
              && !Enabled(after, Deliver(tx)) && !Enabled(after, Reject(tx)) && !Enabled(after, Restore(tx))
              && SameFlight(sys, after, other)
    ensures Enabled(sys, Reject(tx)) ==>
              var after := Next(sys, Reject(tx));
              && !Enabled(after, Deliver(tx)) && !Enabled(after, Reject(tx)) && Enabled(after, Restore(tx))
              && SameFlight(sys, after, other)
    ensures Enabled(sys, Restore(tx)) ==>
              var after := Next(sys, Restore(tx));
              && !Enabled(after, Deliver(tx)) && !Enabled(after, Reject(tx)) && !Enabled(after, Restore(tx))
              && SameFlight(sys, after, other)
  {
  }

  predicate SameFlight(a: Sys, b: Sys, tx: nat) {
    (tx in a.flights <==> tx in b.flights) && (tx in a.flights ==> a.flights[tx] == b.flights[tx])
  }
}
