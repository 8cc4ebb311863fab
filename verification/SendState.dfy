// The send event and the two-phase sender bookkeeping around it, as functions
// on daemon state values. The classes in Daemon.dfy are proved against them.

module SendState {
  import opened Options
  import opened Entries

  datatype Origin = Local | Remote(node: string) | Human(npub: string)

  // strongHttp: the row has a managed HTTP binding, so an HTTP snapshot exists.
  datatype Session = Session(origin: Origin, pane: Option<string>, strongHttp: bool, reminder: Option<string>)

  datatype Proto = Proto(
    wireSeq: nat,
    sessions: map<string, Session>,
    aliases: map<string, string>,
    pending: Pending)

  datatype Request = Request(
    from: string,
    to: string,
    message: string,
    asks: bool,
    respondsTo: Option<nat>,
    done: bool)

  datatype Effect =
    | SendFailed(renamedTo: Option<string>)
    | InjectMessage(sessionId: string, pane: string, replyMsgId: Option<nat>)
    | DeliverHttp(sessionId: string, replyMsgId: Option<nat>)
    | Broadcast(msgId: nat)
    | SendToHuman(npub: string)
    | LogMessage(logFrom: string, logTo: string, delivered: bool, transport: string)
    | SendDelivered(from: string, to: string, via: string, deliveredId: nat)

  // ----- Event::Send -----

  // What a reply does to the replier's own bucket: a final one removes the
  // entries it answers, any other marks the first of them as in progress.
  function Replied(p: Pending, req: Request, now: int): Pending {
    if req.respondsTo.None? || req.from !in p then p
    else if req.done then Store(p, req.from, WithoutReply(p[req.from], req.respondsTo.value, req.to))
    else p[req.from := MarkProgress(p[req.from], req.respondsTo.value, req.to, now)]
  }

  function ReminderOf(sessions: map<string, Session>, id: string): Option<string> {
    if id in sessions then sessions[id].reminder else None
  }

  function SetReminder(sessions: map<string, Session>, id: string, reminder: Option<string>): map<string, Session> {
    if id in sessions then sessions[id := sessions[id].(reminder := reminder)] else sessions
  }

  function AskEntry(req: Request, id: nat, now: int): Entry {
    Entry(id, req.from, req.message, now, now, false)
  }

  function Asked(p: Pending, req: Request, id: nat, now: int): Pending {
    if req.asks then Store(p, req.to, Bucket(p, req.to) + [AskEntry(req, id, now)]) else p
  }

  // A local session with neither a pane nor an HTTP binding cannot be reached.
  predicate Reachable(session: Session) {
    session.origin.Local? ==> session.pane.Some? || session.strongHttp
  }

  predicate Routed(s: Proto, req: Request) {
    req.to in s.sessions && Reachable(s.sessions[req.to])
  }

  // Only a local recipient is given an obligation by an ask.
  predicate OwesReply(s: Proto, req: Request) {
    req.asks && Routed(s, req) && s.sessions[req.to].origin.Local?
  }

  function RouteEffects(session: Session, req: Request, id: nat): seq<Effect> {
    var replyId := if req.asks then Some(id) else None;
    match session.origin
    case Local =>
      if session.pane.Some? then
        var transport := if session.strongHttp then "http" else "tmux";
        [InjectMessage(req.to, session.pane.value, replyId),
         LogMessage(req.from, req.to, true, transport),
         SendDelivered(req.from, req.to, transport, id)]
      else if session.strongHttp then
        [DeliverHttp(req.to, replyId),
         LogMessage(req.from, req.to, true, "http"),
         SendDelivered(req.from, req.to, "http", id)]
      else [SendFailed(None)]
    case Remote(_) =>
      [Broadcast(id), LogMessage(req.from, req.to, true, "nostr"), SendDelivered(req.from, req.to, "nostr", id)]
    case Human(npub) =>
      [SendToHuman(npub),
       LogMessage(req.from, req.to, true, "nostr-dm"),
       SendDelivered(req.from, req.to, "nostr-dm", id)]
  }

  function SendEffects(s: Proto, req: Request): seq<Effect> {
    if req.to in s.sessions then RouteEffects(s.sessions[req.to], req, s.wireSeq + 1)
    else if req.to in s.aliases && s.aliases[req.to] in s.sessions then [SendFailed(Some(s.aliases[req.to]))]
    else [SendFailed(None)]
  }

  function ApplySend(s: Proto, req: Request, now: int): Proto {
    var replied := Replied(s.pending, req, now);
    Proto(
      s.wireSeq + 1,
      if req.done then SetReminder(s.sessions, req.from, None) else s.sessions,
      s.aliases,
      if OwesReply(s, req) then Asked(replied, req, s.wireSeq + 1, now) else replied)
  }

  // The first delivery record among the effects: recipient, message id, sender.
  function DeliveredTo(fx: seq<Effect>): Option<(string, nat, string)> {
    if fx == [] then None
    else if fx[0].SendDelivered? then Some((fx[0].to, fx[0].deliveredId, fx[0].from))
    else DeliveredTo(fx[1..])
  }

  predicate Failed(fx: seq<Effect>) {
    exists i :: 0 <= i < |fx| && fx[i].SendFailed?
  }

  // Exactly one of failure and delivery is reported, and a delivery names the
  // fresh message id.
  lemma SendReports(s: Proto, req: Request)
    ensures Failed(SendEffects(s, req)) <==> !Routed(s, req)
    ensures DeliveredTo(SendEffects(s, req)) ==
            if Routed(s, req) then Some((req.to, s.wireSeq + 1, req.from)) else None
  {
    var fx := SendEffects(s, req);
    if !Routed(s, req) {
      assert fx[0].SendFailed?;
    } else {
      assert fx[1..][0] == fx[1] && fx[1..][1..] == [fx[2]];
      assert DeliveredTo([fx[2]]) == Some((req.to, s.wireSeq + 1, req.from));
      assert !fx[0].SendFailed? && !fx[1].SendFailed? && !fx[2].SendFailed?;
    }
  }

  // The message goes out first, to the recipient and by its own way: typed into
  // the pane of a local session that has one, posted to one that has an HTTP
  // binding alone, broadcast for another daemon, sent to the key of a person.
  // The log and the delivery record name the same way.
  lemma SendGoesOut(s: Proto, req: Request)
    requires Routed(s, req)
    ensures var fx, session := SendEffects(s, req), s.sessions[req.to];
            && |fx| == 3 && fx[1].LogMessage? && fx[2].SendDelivered?
            && (session.origin.Local? && session.pane.Some? ==>
                  && fx[0].InjectMessage? && fx[0].sessionId == req.to && fx[0].pane == session.pane.value
                  && fx[1].transport == (if session.strongHttp then "http" else "tmux"))
            && (session.origin.Local? && session.pane.None? ==>
                  fx[0].DeliverHttp? && fx[0].sessionId == req.to && fx[1].transport == "http")
            && (session.origin.Remote? ==>
                  fx[0].Broadcast? && fx[0].msgId == s.wireSeq + 1 && fx[1].transport == "nostr")
            && (session.origin.Human? ==>
                  fx[0].SendToHuman? && fx[0].npub == session.origin.npub && fx[1].transport == "nostr-dm")
            && fx[1].logFrom == req.from && fx[1].logTo == req.to && fx[1].delivered
            && fx[2].via == fx[1].transport
  {
  }

  // The reply id that goes out with a message, if it goes to a local session.
  function ReplyIdOf(fx: seq<Effect>): Option<nat> {
    if fx != [] && (fx[0].InjectMessage? || fx[0].DeliverHttp?) then fx[0].replyMsgId else None
  }

  // An ask can be answered under the id that goes out with it: that id is the
  // obligation it opens, and a final reply under it by the recipient leaves the
  // recipient owing exactly what it owed before. Other messages carry no id.
  lemma AskIsAnswerable(s: Proto, req: Request, now: int, text: string, later: int)
    requires Routed(s, req) && s.sessions[req.to].origin.Local? && req.from != req.to
    requires Find(Bucket(s.pending, req.to), s.wireSeq + 1).None?
    ensures ReplyIdOf(SendEffects(s, req)).Some? <==> req.asks
    ensures req.asks ==>
              var id, asked := ReplyIdOf(SendEffects(s, req)).value, ApplySend(s, req, now);
              && Bucket(asked.pending, req.to) ==
                 Bucket(s.pending, req.to) + [Entry(id, req.from, req.message, now, now, false)]
              && Bucket(ApplySend(asked, Request(req.to, req.from, text, false, Some(id), true), later).pending, req.to)
                 == Bucket(s.pending, req.to)
  {
    if req.asks {
      var id, asked := s.wireSeq + 1, ApplySend(s, req, now);
      var es, entry := Bucket(s.pending, req.to), AskEntry(req, s.wireSeq + 1, now);
      AskedBucket(s, req, now);
      SenderAfterApply(asked, Request(req.to, req.from, text, false, Some(id), true), later);
      WithoutNewest(es, entry);
    }
  }

  lemma AskedBucket(s: Proto, req: Request, now: int)
    requires OwesReply(s, req) && req.from != req.to
    ensures Bucket(ApplySend(s, req, now).pending, req.to) ==
            Bucket(s.pending, req.to) + [AskEntry(req, s.wireSeq + 1, now)]
  {
    SenderAfterApply(s, req, now);
  }

  lemma {:induction false} WithoutNewest(es: seq<Entry>, entry: Entry)
    requires Find(es, entry.msgId).None?
    ensures WithoutReply(es + [entry], entry.msgId, entry.from) == es
  {
    if es == [] {
      assert es + [entry] == [entry];
    } else {
      assert (es + [entry])[1..] == es[1..] + [entry];
      WithoutNewest(es[1..], entry);
    }
  }

  // ----- sender bookkeeping -----

  datatype Rollback = Rollback(
    senderId: string,
    before: Option<Entry>,
    after: Option<Option<Entry>>,
    reminder: Option<Option<string>>,
    reminderAfter: Option<Option<string>>,
    reserved: bool,
    done: bool)

  function Capture(s: Proto, req: Request): Rollback {
    Rollback(
      req.from,
      if req.respondsTo.Some? then Find(Bucket(s.pending, req.from), req.respondsTo.value) else None,
      None,
      if req.done then Some(ReminderOf(s.sessions, req.from)) else None,
      None,
      false,
      req.done)
  }

  function CaptureAfter(rb: Rollback, s: Proto): Rollback {
    rb.(after :=
          if rb.before.Some? then Some(Find(Bucket(s.pending, rb.senderId), rb.before.value.msgId)) else rb.after,
        reminderAfter := if rb.done then Some(ReminderOf(s.sessions, rb.senderId)) else rb.reminderAfter)
  }

  predicate ReservesEntry(rb: Rollback) {
    rb.done && rb.before.Some? && rb.after == Some(None)
  }

  predicate ReservesReminder(rb: Rollback, s: Proto) {
    rb.done && rb.reminder.Some? && rb.reminderAfter == Some(None) && rb.senderId in s.sessions
  }

  function Flatten(x: Option<Option<string>>): Option<string> {
    if x.Some? then x.value else None
  }

  // Until delivery is decided, what a final reply took from the sender is put back.
  function Reserve(rb: Rollback, s: Proto): (Proto, Rollback) {
    var pending :=
      if ReservesEntry(rb) then s.pending[rb.senderId := Bucket(s.pending, rb.senderId) + [rb.before.value]]
      else s.pending;
    var sessions :=
      if ReservesReminder(rb, s) then SetReminder(s.sessions, rb.senderId, Flatten(rb.reminder)) else s.sessions;
    (s.(pending := pending, sessions := sessions),
     rb.(reserved := rb.reserved || ReservesEntry(rb) || ReservesReminder(rb, s)))
  }

  // First lock of a send: capture, apply, capture again, reserve.
  function Begin(s: Proto, req: Request, now: int): (Proto, Rollback) {
    var applied := ApplySend(s, req, now);
    Reserve(CaptureAfter(Capture(s, req), applied), applied)
  }

  // First lock of a rollback: withdraw the obligation the failed ask created.
  function ClearRecipient(s: Proto, fx: seq<Effect>): Proto {
    var delivered := DeliveredTo(fx);
    if delivered.None? || delivered.value.0 !in s.pending then s
    else
      var (to, id, from) := delivered.value;
      s.(pending := Store(s.pending, to, WithoutReply(s.pending[to], id, from)))
  }

  // Second lock of a rollback: restore the sender's captured state, but only
  // over what the send itself left behind.
  function RestoreSender(s: Proto, rb: Rollback): Proto {
    if rb.reserved then s
    else
      var current :=
        if rb.before.Some? then Find(Bucket(s.pending, rb.senderId), rb.before.value.msgId) else None;
      var pending :=
        if rb.before.Some? && rb.after == Some(current)
        then s.pending[rb.senderId := PutBack(Bucket(s.pending, rb.senderId), rb.before.value)]
        else s.pending;
      var sessions :=
        if rb.done && rb.reminderAfter == Some(ReminderOf(s.sessions, rb.senderId))
        then SetReminder(s.sessions, rb.senderId, Flatten(rb.reminder))
        else s.sessions;
      s.(pending := pending, sessions := sessions)
  }

  // The single lock of a successful send.
  function Finalize(s: Proto, rb: Rollback): Proto {
    if !rb.done then s
    else
      var pending :=
        if rb.before.Some? && rb.senderId in s.pending
        then Store(s.pending, rb.senderId, WithoutId(s.pending[rb.senderId], rb.before.value.msgId))
        else s.pending;
      var sessions := if rb.reminder.Some? then SetReminder(s.sessions, rb.senderId, None) else s.sessions;
      s.(pending := pending, sessions := sessions)
  }

  // A failed send with nothing in between.
  function Fail(s: Proto, req: Request, now: int): Proto {
    var (begun, rb) := Begin(s, req, now);
    RestoreSender(ClearRecipient(begun, SendEffects(s, req)), rb)
  }

  // ----- what holds of the bookkeeping on every state -----

  // A rollback that did not reserve the captured entry left one with its id in
  // the bucket: restoring can only overwrite, never append.
  lemma NothingLeftToAppend(s: Proto, req: Request, now: int)
    ensures var rb := Begin(s, req, now).1;
            rb.before.Some? && !rb.reserved ==> rb.after.Some? && rb.after.value.Some?
  {
    if req.respondsTo.Some? {
      MarkProgressFind(Bucket(s.pending, req.from), req.respondsTo.value, req.to, now);
      SenderAfterApply(s, req, now);
    }
  }

  // Whatever happened between the two locks, a rejected send never changes a
  // session row in its second lock: the reminder was already put back.
  lemma RestoreKeepsReminders(s: Proto, req: Request, now: int, later: Proto)
    ensures RestoreSender(later, Begin(s, req, now).1).sessions == later.sessions
  {
    var rb := Begin(s, req, now).1;
    if rb.done && !rb.reserved {
      assert req.from !in s.sessions;
      assert rb.reminder == Some(None) && rb.reminderAfter == Some(None);
      if ReminderOf(later.sessions, req.from) == None && req.from in later.sessions {
        assert later.sessions[req.from].(reminder := None) == later.sessions[req.from];
      }
    }
  }

  // An obligation that was cleared while the send was in flight stays cleared:
  // restoring adds no (id, asker) pair to any bucket.
  lemma RestoreNeverResurrects(s: Proto, req: Request, now: int, later: Proto, owner: string, id: nat)
    requires Find(Bucket(later.pending, owner), id).None?
    ensures Find(Bucket(RestoreSender(later, Begin(s, req, now).1).pending, owner), id).None?
  {
    var rb := Begin(s, req, now).1;
    NothingLeftToAppend(s, req, now);
    if rb.before.Some? {
      PutBackIds(Bucket(later.pending, owner), rb.before.value, id);
    }
  }

  lemma {:induction false} PutBackIds(es: seq<Entry>, entry: Entry, id: nat)
    requires Find(es, id).None?
    ensures Find(es, entry.msgId).Some? ==> Find(PutBack(es, entry), id).None?
  {
    if es != [] && es[0].msgId != entry.msgId {
      PutBackIds(es[1..], entry, id);
    }
  }

  // A delivered final reply discharges the captured obligation in any later
  // state, however its entry was changed meanwhile, and whoever the reply was
  // addressed to.
  lemma FinalReplyDischarges(s: Proto, req: Request, now: int, later: Proto)
    requires req.done && Begin(s, req, now).1.before.Some?
    ensures var after := Finalize(later, Begin(s, req, now).1);
            && Find(Bucket(after.pending, req.from), req.respondsTo.value).None?
            && ReminderOf(after.sessions, req.from).None?
            && (forall o: string, e: Entry :: o != req.from || e.msgId != req.respondsTo.value ==>
                  (e in Bucket(after.pending, o) <==> e in Bucket(later.pending, o)))
  {
    var rb := Begin(s, req, now).1;
    assert rb.before.value.msgId == req.respondsTo.value;
  }

  // The first lock leaves every session row as it was: the reminder it takes
  // from a sender that is done is put back until delivery is decided.
  lemma BeginKeepsSessions(s: Proto, req: Request, now: int)
    ensures Begin(s, req, now).0.sessions == s.sessions
  {
    if req.from in s.sessions {
      var reminder := s.sessions[req.from].reminder;
      assert s.sessions[req.from].(reminder := None).(reminder := reminder) == s.sessions[req.from];
    }
  }

  // Whether or not an entry was captured, a delivered message that is done
  // clears its sender's reminder in any later state, and no other field of any
  // row; one that is not done changes nothing.
  lemma DeliveryClearsReminder(s: Proto, req: Request, now: int, later: Proto)
    ensures var after := Finalize(later, Begin(s, req, now).1);
            && (!req.done ==> after == later)
            && after.sessions.Keys == later.sessions.Keys
            && (forall id :: id in later.sessions ==>
                  && after.sessions[id].reminder ==
                     (if req.done && id == req.from then None else later.sessions[id].reminder)
                  && after.sessions[id].(reminder := None) == later.sessions[id].(reminder := None))
            && (req.done && Begin(s, req, now).1.before.None? ==> after.pending == later.pending)
  {
    assert req.done <==> Begin(s, req, now).1.reminder.Some?;
  }

  // The sender's bucket right after the event, when the recipient is someone else.
  lemma SenderAfterApply(s: Proto, req: Request, now: int)
    ensures req.from in Replied(s.pending, req, now) ==> req.from in s.pending
    ensures Bucket(Replied(s.pending, req, now), req.from) ==
            (if req.respondsTo.None? then Bucket(s.pending, req.from)
             else if req.done then WithoutReply(Bucket(s.pending, req.from), req.respondsTo.value, req.to)
             else MarkProgress(Bucket(s.pending, req.from), req.respondsTo.value, req.to, now))
    ensures req.from != req.to ==>
              Bucket(ApplySend(s, req, now).pending, req.from) == Bucket(Replied(s.pending, req, now), req.from)
    ensures Bucket(Replied(s.pending, req, now), req.from) <= Bucket(ApplySend(s, req, now).pending, req.from)
    ensures forall o :: o != req.from ==> Bucket(Replied(s.pending, req, now), o) == Bucket(s.pending, o)
  {
  }

  // Only the sender's bucket is touched by reserving and restoring, only the
  // recipient's by clearing.
  lemma BookkeepingFrame(s: Proto, rb: Rollback, fx: seq<Effect>, owner: string)
    ensures owner != rb.senderId ==>
              && Bucket(Reserve(rb, s).0.pending, owner) == Bucket(s.pending, owner)
              && Bucket(RestoreSender(s, rb).pending, owner) == Bucket(s.pending, owner)
    ensures DeliveredTo(fx).Some? && DeliveredTo(fx).value.0 == owner ==>
              Bucket(ClearRecipient(s, fx).pending, owner) ==
              WithoutReply(Bucket(s.pending, owner), DeliveredTo(fx).value.1, DeliveredTo(fx).value.2)
    ensures DeliveredTo(fx).None? || DeliveredTo(fx).value.0 != owner ==>
              Bucket(ClearRecipient(s, fx).pending, owner) == Bucket(s.pending, owner)
  {
  }

  lemma BegunSenderBucket(s: Proto, req: Request, now: int)
    requires req.from != req.to
    ensures var es := Bucket(s.pending, req.from);
            var applied := Bucket(ApplySend(s, req, now).pending, req.from);
            var (begun, rb) := Begin(s, req, now);
            && rb.senderId == req.from
            && rb.before == (if req.respondsTo.Some? then Find(es, req.respondsTo.value) else None)
            && (rb.before.Some? ==> rb.after == Some(Find(applied, rb.before.value.msgId)))
            && rb.reserved == (ReservesEntry(rb) || (req.done && req.from in s.sessions))
            && Bucket(begun.pending, req.from) == (if ReservesEntry(rb) then applied + [rb.before.value] else applied)
  {
  }

  lemma BegunOtherBucket(s: Proto, req: Request, now: int, owner: string)
    requires owner != req.from
    ensures Bucket(Begin(s, req, now).0.pending, owner) ==
            (if OwesReply(s, req) && owner == req.to
             then Bucket(s.pending, owner) + [AskEntry(req, s.wireSeq + 1, now)]
             else Bucket(s.pending, owner))
  {
    var applied := ApplySend(s, req, now);
    BookkeepingFrame(applied, CaptureAfter(Capture(s, req), applied), [], owner);
    SenderAfterApply(s, req, now);
  }
}
