// The mutable daemon state and the send handler's bookkeeping, in the form the
// program gives them: objects updated in place under the protocol lock. Every
// method is proved against the functions of SendState and SendLedger.

module Daemon {
  import opened Options
  import opened Entries
  import S = SendState
  import L = SendLedger
  import D = Delivery

  class DaemonState {
    var wireSeq: nat
    var sessions: map<string, S.Session>
    var aliases: map<string, string>
    var pending: Pending

    ghost function State(): S.Proto
      reads this
    {
      S.Proto(wireSeq, sessions, aliases, pending)
    }

    method NextSeq() returns (id: nat)
      modifies this`wireSeq
      ensures wireSeq == old(wireSeq) + 1 && id == wireSeq
    {
      wireSeq := wireSeq + 1;
      id := wireSeq;
    }

    // retain on one bucket; a bucket left empty is removed.
    method KeepWhere(owner: string, keep: Entry -> bool)
      modifies this`pending
      ensures pending == if owner in old(pending)
                         then Store(old(pending), owner, Retain(old(pending)[owner], keep))
                         else old(pending)
    {
      if owner in pending {
        var left := Retain(pending[owner], keep);
        if left == [] {
          pending := pending - {owner};
        } else {
          pending := pending[owner := left];
        }
      }
    }

    method ApplySend(req: S.Request, now: int) returns (fx: seq<S.Effect>)
      modifies this
      ensures State() == S.ApplySend(old(State()), req, now)
      ensures fx == S.SendEffects(old(State()), req)
    {
      var msgId := NextSeq();
      if req.respondsTo.Some? {
        if req.done {
          KeepWhere(req.from, (e: Entry) => !IsReplyTo(e, req.respondsTo.value, req.to));
        } else if req.from in pending {
          pending := pending[req.from := MarkProgress(pending[req.from], req.respondsTo.value, req.to, now)];
        }
      }
      if req.done && req.from in sessions {
        sessions := sessions[req.from := sessions[req.from].(reminder := None)];
      }
      if req.to !in sessions {
        if req.to in aliases && aliases[req.to] in sessions {
          return [S.SendFailed(Some(aliases[req.to]))];
        }
        return [S.SendFailed(None)];
      }
      fx := S.RouteEffects(sessions[req.to], req, msgId);
      if req.asks && sessions[req.to].origin.Local? && S.Reachable(sessions[req.to]) {
        pending := pending[req.to := Bucket(pending, req.to) + [S.AskEntry(req, msgId, now)]];
      }
    }

    // How many entries were cleared tells a caller whether there was anything to clear.
    method ClearPendingReplyFrom(owner: string, asker: string) returns (removed: nat)
      modifies this`pending
      ensures pending == L.ClearedFrom(old(pending), owner, asker)
      ensures removed == |Bucket(old(pending), owner)| - |Bucket(pending, owner)|
      ensures removed == 0 <==> forall e :: e in Bucket(old(pending), owner) ==> e.from != asker
    {
      NothingRemoved(Bucket(pending, owner), asker);
      var before := |Bucket(pending, owner)|;
      KeepWhere(owner, (e: Entry) => e.from != asker);
      removed := before - |Bucket(pending, owner)|;
    }

    method ClearOrphanedReplies(removed: set<string>)
      modifies this`pending
      ensures pending == L.Forgotten(old(pending), removed)
    {
      var todo := pending.Keys;
      while todo != {}
        invariant todo <= old(pending).Keys
        invariant pending == PartlyForgotten(old(pending), todo, removed)
      {
        var owner :| owner in todo;
        ForgetOne(old(pending), todo, removed, owner);
        todo := todo - {owner};
        KeepWhere(owner, (e: Entry) => e.from !in removed);
      }
      pending := map o | o in pending && o !in removed :: pending[o];
    }
  }

  // The buckets still to visit are untouched; the others are filtered.
  function PartlyForgotten(p: Pending, todo: set<string>, ids: set<string>): Pending {
    map o | o in p && (o in todo || L.WithoutAskers(p[o], ids) != []) ::
      if o in todo then p[o] else L.WithoutAskers(p[o], ids)
  }

  lemma ForgetOne(p: Pending, todo: set<string>, ids: set<string>, owner: string)
    requires owner in todo && owner in p
    ensures var part := PartlyForgotten(p, todo, ids);
            && owner in part
            && part[owner] == p[owner]
            && PartlyForgotten(p, todo - {owner}, ids) == Store(part, owner, L.WithoutAskers(p[owner], ids))
  {
  }

  lemma NothingRemoved(es: seq<Entry>, asker: string)
    ensures |WithoutAsker(es, asker)| == |es| <==> forall e :: e in es ==> e.from != asker
  {
    RetainSplits(es, (e: Entry) => e.from != asker, (e: Entry) => e.from == asker);
    var gone := Retain(es, (e: Entry) => e.from == asker);
    assert forall e :: e in gone <==> e in es && e.from == asker;
    assert |gone| > 0 ==> gone[0] in gone;
  }

  // What a send captured of its sender, and whether part of it was put back.
  class FailedSendRollback {
    const senderId: string
    const before: Option<Entry>
    const reminder: Option<Option<string>>
    const done: bool
    var after: Option<Option<Entry>>
    var reminderAfter: Option<Option<string>>
    var reserved: bool

    ghost function Record(): S.Rollback
      reads this
    {
      S.Rollback(senderId, before, after, reminder, reminderAfter, reserved, done)
    }

    constructor Capture(proto: DaemonState, req: S.Request)
      ensures Record() == S.Capture(proto.State(), req)
    {
      senderId := req.from;
      before := if req.respondsTo.Some? then Find(Bucket(proto.pending, req.from), req.respondsTo.value) else None;
      after := None;
      reminder := if req.done then Some(S.ReminderOf(proto.sessions, req.from)) else None;
      reminderAfter := None;
      reserved := false;
      done := req.done;
    }

    method CaptureAfterSend(proto: DaemonState)
      modifies this`after, this`reminderAfter
      ensures Record() == S.CaptureAfter(old(Record()), proto.State())
    {
      if before.Some? {
        after := Some(Find(Bucket(proto.pending, senderId), before.value.msgId));
      }
      if done {
        reminderAfter := Some(S.ReminderOf(proto.sessions, senderId));
      }
    }

    method ReserveSenderState(proto: DaemonState)
      modifies this`reserved, proto`pending, proto`sessions
      ensures (proto.State(), Record()) == S.Reserve(old(Record()), old(proto.State()))
    {
      if !done {
        return;
      }
      if before.Some? && after == Some(None) {
        proto.pending := proto.pending[senderId := Bucket(proto.pending, senderId) + [before.value]];
        reserved := true;
      }
      if reminder.Some? && reminderAfter == Some(None) && senderId in proto.sessions {
        proto.sessions := proto.sessions[senderId := proto.sessions[senderId].(reminder := S.Flatten(reminder))];
        reserved := true;
      }
    }
  }

  // The first lock of a send.
  method BeginSend(proto: DaemonState, req: S.Request, now: int)
    returns (fx: seq<S.Effect>, rollback: FailedSendRollback)
    modifies proto
    ensures fresh(rollback)
    ensures proto.sessions == old(proto.sessions)
    ensures fx == S.SendEffects(old(proto.State()), req)
    ensures (proto.State(), rollback.Record()) == S.Begin(old(proto.State()), req, now)
  {
    S.BeginKeepsSessions(proto.State(), req, now);
    rollback := new FailedSendRollback.Capture(proto, req);
    fx := proto.ApplySend(req, now);
    rollback.CaptureAfterSend(proto);
    rollback.ReserveSenderState(proto);
  }

  method ClearPendingReplyForFailedDelivery(proto: DaemonState, fx: seq<S.Effect>)
    modifies proto`pending
    ensures proto.State() == S.ClearRecipient(old(proto.State()), fx)
  {
    var delivered := S.DeliveredTo(fx);
    if delivered.Some? {
      var (to, id, from) := delivered.value;
      proto.KeepWhere(to, (e: Entry) => !IsReplyTo(e, id, from));
    }
  }

  method RestoreSenderState(proto: DaemonState, rollback: FailedSendRollback)
    modifies proto`pending, proto`sessions
    ensures proto.State() == S.RestoreSender(old(proto.State()), rollback.Record())
  {
    if rollback.reserved {
      return;
    }
    var sender := rollback.senderId;
    if rollback.before.Some? {
      var entry := rollback.before.value;
      if rollback.after == Some(Find(Bucket(proto.pending, sender), entry.msgId)) {
        proto.pending := proto.pending[sender := PutBack(Bucket(proto.pending, sender), entry)];
      }
    }
    if rollback.done && rollback.reminderAfter == Some(S.ReminderOf(proto.sessions, sender))
       && sender in proto.sessions {
      proto.sessions := proto.sessions[sender := proto.sessions[sender].(reminder := S.Flatten(rollback.reminder))];
    }
  }

  // Clears the sender's reminder whether or not an entry was captured.
  method FinalizeSuccessfulDelivery(proto: DaemonState, rollback: FailedSendRollback)
    modifies proto`pending, proto`sessions
    ensures !rollback.done ==> proto.State() == old(proto.State())
    ensures rollback.before.None? ==> proto.pending == old(proto.pending)
    ensures proto.sessions.Keys == old(proto.sessions).Keys
    ensures forall id :: id in proto.sessions ==>
              proto.sessions[id] ==
              if rollback.done && rollback.reminder.Some? && id == rollback.senderId
              then old(proto.sessions)[id].(reminder := None) else old(proto.sessions)[id]
    ensures proto.State() == S.Finalize(old(proto.State()), rollback.Record())
  {
    if !rollback.done {
      return;
    }
    if rollback.before.Some? {
      proto.KeepWhere(rollback.senderId, (e: Entry) => e.msgId != rollback.before.value.msgId);
    }
    if rollback.reminder.Some? && rollback.senderId in proto.sessions {
      proto.sessions := proto.sessions[rollback.senderId := proto.sessions[rollback.senderId].(reminder := None)];
    }
  }

  datatype Status = Refused | Restarting | NotFound | BadGateway | Delivered(outcome: D.Outcome)

  // A whole send that nothing else interleaves with. answers holds what the
  // transports say about each effect; restarting tells whether the recipient
  // has a restart in progress.
  method SendMessage(proto: DaemonState, req: S.Request, restarting: bool, answers: seq<D.Outcome>, now: int)
    returns (status: Status)
    requires |answers| == |S.SendEffects(proto.State(), req)|
    modifies proto
    ensures !req.done ==> proto.sessions == old(proto.sessions)
    ensures status.Delivered? && req.done ==>
              && proto.sessions.Keys == old(proto.sessions).Keys
              && (forall id :: id in proto.sessions ==>
                    proto.sessions[id] == if id == req.from then old(proto.sessions)[id].(reminder := None)
                                          else old(proto.sessions)[id])
    ensures !status.Delivered? ==> proto.sessions == old(proto.sessions)
    ensures req.from == req.to ==> status == Refused && proto.State() == old(proto.State())
    ensures req.from != req.to && restarting ==> status == Restarting && proto.State() == old(proto.State())
    ensures req.from != req.to && !restarting && !S.Routed(old(proto.State()), req) ==> status == NotFound
    ensures req.from != req.to && !restarting && S.Routed(old(proto.State()), req) ==>
              status == BadGateway || status.Delivered?
    ensures status.BadGateway? <==>
              && req.from != req.to && !restarting && S.Routed(old(proto.State()), req)
              && old(proto.sessions)[req.to].origin.Local? && answers[0].Rejected?
    ensures status.Delivered? ==>
              status.outcome == if old(proto.sessions)[req.to].origin.Local? then answers[0] else D.Accepted
    ensures status.NotFound? || status.BadGateway? ==> proto.State() == S.Fail(old(proto.State()), req, now)
    ensures status.BadGateway? ==>
              exists reason ::
                D.FirstWorst(D.Answered(S.SendEffects(old(proto.State()), req), answers, |answers|), D.Rejected(reason))
    ensures status.Delivered? ==>
              && D.FirstWorst(D.Answered(S.SendEffects(old(proto.State()), req), answers, |answers|), status.outcome)
              && !status.outcome.Rejected?
              && proto.State() == (var begun := S.Begin(old(proto.State()), req, now); S.Finalize(begun.0, begun.1))
  {
    if req.from == req.to {
      return Refused;
    }
    if restarting {
      return Restarting;
    }
    S.SendReports(proto.State(), req);
    ghost var before := proto.State();
    var fx, rollback := BeginSend(proto, req, now);
    if S.Failed(fx) {
      ClearPendingReplyForFailedDelivery(proto, fx);
      S.RestoreKeepsReminders(before, req, now, proto.State());
      RestoreSenderState(proto, rollback);
      return NotFound;
    }
    var outcome, _ := D.ExecuteSendEffects(fx, answers);
    D.RecipientDecides(before, req, answers, outcome);
    if outcome.Rejected? {
      ClearPendingReplyForFailedDelivery(proto, fx);
      S.RestoreKeepsReminders(before, req, now, proto.State());
      RestoreSenderState(proto, rollback);
      return BadGateway;
    }
    FinalizeSuccessfulDelivery(proto, rollback);
    return Delivered(outcome);
  }
}
