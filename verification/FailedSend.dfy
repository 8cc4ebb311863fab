// A failed send with nothing in between should leave no trace. These lemmas say
// for every state exactly when it does.

module FailedSend {
  import opened Options
  import opened Entries
  import opened SendState

  // The sender's bucket survives a failed send exactly when no entry answers
  // the reply, or the message id tells the answered entry from all others: a
  // final reply needs it to be the only entry with its id, a progress reply
  // needs it to be the first one (or to carry the mark already).
  predicate SenderRestorable(es: seq<Entry>, req: Request, now: int) {
    req.respondsTo.Some? ==>
      var id := req.respondsTo.value;
      var mine := Matching(es, id, req.to);
      || mine == []
      || (req.done && |WithId(es, id)| == 1)
      || (!req.done && AskedFirst(es, id, req.to))
      || (!req.done && Marked(mine[0], now))
  }

  // The first entry with this id came from this asker.
  predicate AskedFirst(es: seq<Entry>, id: nat, asker: string) {
    var first := Find(es, id);
    first.Some? && first.value.from == asker
  }

  // The daemon hands out fresh message ids; the recipient's bucket survives
  // exactly when the one used here is fresh there for this sender.
  predicate RecipientFresh(s: Proto, req: Request) {
    Routed(s, req) ==> NoReplyTo(Bucket(s.pending, req.to), s.wireSeq + 1, req.from)
  }

  predicate NoReplyTo(es: seq<Entry>, id: nat, asker: string) {
    forall e :: e in es ==> !IsReplyTo(e, id, asker)
  }

  ghost predicate SameObligations(p: Pending, q: Pending) {
    forall o :: multiset(Bucket(p, o)) == multiset(Bucket(q, o))
  }

  // What a failed send makes of the sender's bucket. heldReminder: the sender
  // has a row, so the reminder was reserved and the rollback stops early.
  function FailedBucket(es: seq<Entry>, req: Request, heldReminder: bool, now: int): seq<Entry> {
    if req.respondsTo.None? then es
    else
      var id := req.respondsTo.value;
      var applied := if req.done then WithoutReply(es, id, req.to) else MarkProgress(es, id, req.to, now);
      if Find(es, id).None? then applied
      else if req.done && Find(applied, id).None? then applied + [Find(es, id).value]
      else if req.done && heldReminder then applied
      else PutBack(applied, Find(es, id).value)
  }

  lemma SenderBucketAfterFailure(s: Proto, req: Request, now: int)
    requires req.from != req.to
    ensures Bucket(Fail(s, req, now).pending, req.from) ==
            FailedBucket(Bucket(s.pending, req.from), req, req.from in s.sessions, now)
  {
    SenderAfterApply(s, req, now);
    SendReports(s, req);
    BegunSenderBucket(s, req, now);
    var (begun, rb) := Begin(s, req, now);
    BookkeepingFrame(begun, rb, SendEffects(s, req), req.from);
    NothingLeftToAppend(s, req, now);
  }

  lemma OtherBucketAfterFailure(s: Proto, req: Request, now: int, owner: string)
    requires owner != req.from
    ensures Bucket(Fail(s, req, now).pending, owner) ==
            (if Routed(s, req) && owner == req.to
             then WithoutReply(Bucket(s.pending, owner), s.wireSeq + 1, req.from)
             else Bucket(s.pending, owner))
  {
    SendReports(s, req);
    BegunOtherBucket(s, req, now, owner);
    var (begun, rb) := Begin(s, req, now);
    var fx := SendEffects(s, req);
    BookkeepingFrame(begun, rb, fx, owner);
    BookkeepingFrame(ClearRecipient(begun, fx), rb, fx, owner);
    var ask := AskEntry(req, s.wireSeq + 1, now);
    RetainConcat(Bucket(s.pending, owner), [ask], (e: Entry) => !IsReplyTo(e, s.wireSeq + 1, req.from));
    assert WithoutReply([ask], s.wireSeq + 1, req.from) == [];
  }

  // Removing matches loses entries unless there were none.
  lemma WithoutReplyLoses(es: seq<Entry>, id: nat, asker: string)
    ensures multiset(es) == multiset(WithoutReply(es, id, asker)) + multiset(Matching(es, id, asker))
    ensures |WithoutReply(es, id, asker)| == |es| - |Matching(es, id, asker)|
    ensures Matching(es, id, asker) == [] ==> WithoutReply(es, id, asker) == es
  {
    RetainSplits(es, (e: Entry) => !IsReplyTo(e, id, asker), (e: Entry) => IsReplyTo(e, id, asker));
    if Matching(es, id, asker) == [] {
      assert forall e :: e in es && IsReplyTo(e, id, asker) ==> e in Matching(es, id, asker);
      RetainAll(es, (e: Entry) => !IsReplyTo(e, id, asker));
    }
  }

  // When every entry with the id comes from the same asker the two selections agree.
  lemma {:induction false} MatchingIsWithId(es: seq<Entry>, id: nat, asker: string)
    ensures |Matching(es, id, asker)| <= |WithId(es, id)|
    ensures Find(WithoutReply(es, id, asker), id).None? ==> Matching(es, id, asker) == WithId(es, id)
    ensures Find(WithoutReply(es, id, asker), id).Some? ==> |Matching(es, id, asker)| < |WithId(es, id)|
  {
    if es != [] {
      MatchingIsWithId(es[1..], id, asker);
    }
  }

  lemma FinalReplyBucket(es: seq<Entry>, req: Request, heldReminder: bool, now: int)
    requires req.done && req.respondsTo.Some?
    ensures multiset(FailedBucket(es, req, heldReminder, now)) == multiset(es) <==> SenderRestorable(es, req, now)
  {
    var id := req.respondsTo.value;
    WithoutReplyLoses(es, id, req.to);
    MatchingIsWithId(es, id, req.to);
    if Matching(es, id, req.to) == [] {
      FindPutBackAll(es, id);
    } else {
      assert Matching(es, id, req.to)[0] in es;
      if Find(WithoutReply(es, id, req.to), id).None? {
        ReservedBucket(es, id, req.to);
      } else {
        FindPutBack(WithoutReply(es, id, req.to), Find(es, id).value);
        ShorterDiffers(FailedBucket(es, req, heldReminder, now), es);
      }
    }
  }

  lemma ShorterDiffers(a: seq<Entry>, b: seq<Entry>)
    requires |a| != |b|
    ensures multiset(a) != multiset(b)
  {
    assert |multiset(a)| == |a| && |multiset(b)| == |b|;
  }

  // One captured entry is put back for all the entries that were removed.
  lemma ReservedBucket(es: seq<Entry>, id: nat, asker: string)
    requires Find(es, id).Some? && Find(WithoutReply(es, id, asker), id).None?
    ensures multiset(WithoutReply(es, id, asker) + [Find(es, id).value]) == multiset(es) <==> |WithId(es, id)| == 1
  {
    var rest, mine, first := WithoutReply(es, id, asker), Matching(es, id, asker), Find(es, id).value;
    WithoutReplyLoses(es, id, asker);
    MatchingIsWithId(es, id, asker);
    FirstIsMatch(es, id, asker);
    SwapIn(es, rest, mine, first);
  }

  // Replacing a part by its first element gives back the whole exactly when
  // the part was that element alone.
  lemma SwapIn(whole: seq<Entry>, rest: seq<Entry>, part: seq<Entry>, first: Entry)
    requires part != [] && part[0] == first
    requires multiset(whole) == multiset(rest) + multiset(part)
    ensures multiset(rest + [first]) == multiset(whole) <==> |part| == 1
  {
    assert |multiset(whole)| == |rest| + |part|;
    if |part| == 1 {
      assert part == [first];
    } else {
      ShorterDiffers(rest + [first], whole);
    }
  }

  lemma FindPutBackAll(es: seq<Entry>, id: nat)
    ensures Find(es, id).Some? ==> PutBack(es, Find(es, id).value) == es
  {
    if Find(es, id).Some? {
      FindPutBack(es, Find(es, id).value);
    }
  }

  // If only matches carry the id, the first entry with the id is the first match.
  lemma {:induction false} FirstIsMatch(es: seq<Entry>, id: nat, asker: string)
    requires Find(WithoutReply(es, id, asker), id).None?
    requires Find(es, id).Some?
    ensures Matching(es, id, asker) != [] && Matching(es, id, asker)[0] == Find(es, id).value
  {
    if es[0].msgId == id {
      var head := es[0];
      assert head in es;
      assert IsReplyTo(head, id, asker) || head in WithoutReply(es, id, asker);
    } else {
      assert WithoutReply(es, id, asker) == [es[0]] + WithoutReply(es[1..], id, asker);
      FirstIsMatch(es[1..], id, asker);
    }
  }

  lemma NoMatch(es: seq<Entry>, id: nat, asker: string)
    requires forall e :: e in es ==> e.msgId != id
    ensures Matching(es, id, asker) == []
  {
    RetainNone(es, (e: Entry) => IsReplyTo(e, id, asker));
  }

  lemma ProgressReplyBucket(es: seq<Entry>, req: Request, heldReminder: bool, now: int)
    requires !req.done && req.respondsTo.Some?
    ensures multiset(FailedBucket(es, req, heldReminder, now)) == multiset(es) <==> SenderRestorable(es, req, now)
  {
    var id := req.respondsTo.value;
    MarkProgressFind(es, id, req.to, now);
    MarkProgressMultiset(es, id, req.to, now);
    var marked := MarkProgress(es, id, req.to, now);
    if Find(es, id).Some? {
      assert Find(es, id).value in es;
      if Find(es, id).value.from != req.to {
        FindPutBackAll(marked, id);
      }
    } else {
      NoMatch(es, id, req.to);
    }
  }

  // The main result on failures, for every state and request: a failed send
  // never touches a session row and leaves no empty bucket; it leaves every
  // session's obligations as they were exactly when the message ids involved
  // are unambiguous in the two buckets.
  lemma FailedSendIsNoOp(s: Proto, req: Request, now: int)
    requires req.from != req.to
    ensures Fail(s, req, now).sessions == s.sessions && Fail(s, req, now).aliases == s.aliases
    ensures NoEmptyBucket(s.pending) ==> NoEmptyBucket(Fail(s, req, now).pending)
    ensures SameObligations(s.pending, Fail(s, req, now).pending) <==>
            SenderRestorable(Bucket(s.pending, req.from), req, now) && RecipientFresh(s, req)
  {
    FailureKeepsSessions(s, req, now);
    if NoEmptyBucket(s.pending) {
      FailureLeavesNoEmptyBucket(s, req, now);
    }
    SenderObligations(s, req, now);
    RecipientObligations(s, req, now);
    OnlyTwoBucketsMatter(s, req, now);
  }

  lemma OnlyTwoBucketsMatter(s: Proto, req: Request, now: int)
    requires req.from != req.to
    ensures var after := Fail(s, req, now).pending;
            SameObligations(s.pending, after) <==>
            && multiset(Bucket(after, req.from)) == multiset(Bucket(s.pending, req.from))
            && multiset(Bucket(after, req.to)) == multiset(Bucket(s.pending, req.to))
  {
    var after := Fail(s, req, now).pending;
    forall o | o != req.from && o != req.to
      ensures Bucket(after, o) == Bucket(s.pending, o)
    {
      OtherBucketAfterFailure(s, req, now, o);
    }
    TwoBuckets(s.pending, after, req.from, req.to);
  }

  // Two buckets decide whether the obligations are the same when all others agree.
  lemma TwoBuckets(p: Pending, q: Pending, a: string, b: string)
    requires forall o :: o != a && o != b ==> Bucket(q, o) == Bucket(p, o)
    ensures SameObligations(p, q) <==>
            multiset(Bucket(q, a)) == multiset(Bucket(p, a)) && multiset(Bucket(q, b)) == multiset(Bucket(p, b))
  {
  }

  lemma SenderObligations(s: Proto, req: Request, now: int)
    requires req.from != req.to
    ensures multiset(Bucket(Fail(s, req, now).pending, req.from)) == multiset(Bucket(s.pending, req.from)) <==>
            SenderRestorable(Bucket(s.pending, req.from), req, now)
  {
    SenderBucketAfterFailure(s, req, now);
    if req.respondsTo.Some? {
      if req.done {
        FinalReplyBucket(Bucket(s.pending, req.from), req, req.from in s.sessions, now);
      } else {
        ProgressReplyBucket(Bucket(s.pending, req.from), req, req.from in s.sessions, now);
      }
    }
  }

  lemma RecipientObligations(s: Proto, req: Request, now: int)
    requires req.from != req.to
    ensures multiset(Bucket(Fail(s, req, now).pending, req.to)) == multiset(Bucket(s.pending, req.to)) <==>
            RecipientFresh(s, req)
  {
    var es := Bucket(s.pending, req.to);
    OtherBucketAfterFailure(s, req, now, req.to);
    if Routed(s, req) {
      RemovalShows(es, s.wireSeq + 1, req.from);
    }
  }

  lemma RemovalShows(es: seq<Entry>, id: nat, asker: string)
    ensures multiset(WithoutReply(es, id, asker)) == multiset(es) <==> NoReplyTo(es, id, asker)
  {
    WithoutReplyLoses(es, id, asker);
    if NoReplyTo(es, id, asker) {
      RetainNone(es, (e: Entry) => IsReplyTo(e, id, asker));
    } else {
      ShorterDiffers(WithoutReply(es, id, asker), es);
    }
  }

  lemma FailureKeepsSessions(s: Proto, req: Request, now: int)
    ensures Fail(s, req, now).sessions == s.sessions && Fail(s, req, now).aliases == s.aliases
  {
    var (begun, rb) := Begin(s, req, now);
    RestoreKeepsReminders(s, req, now, ClearRecipient(begun, SendEffects(s, req)));
    if req.done && req.from in s.sessions {
      var row := s.sessions[req.from];
      assert row.(reminder := None).(reminder := row.reminder) == row;
    }
  }

  lemma FailureLeavesNoEmptyBucket(s: Proto, req: Request, now: int)
    requires NoEmptyBucket(s.pending)
    ensures NoEmptyBucket(Fail(s, req, now).pending)
  {
    var (begun, rb) := Begin(s, req, now);
    BeginLeavesNoEmptyBucket(s, req, now);
    ClearLeavesNoEmptyBucket(begun, SendEffects(s, req));
    RestoreLeavesNoEmptyBucket(ClearRecipient(begun, SendEffects(s, req)), rb);
  }

  lemma BeginLeavesNoEmptyBucket(s: Proto, req: Request, now: int)
    requires NoEmptyBucket(s.pending)
    ensures NoEmptyBucket(Begin(s, req, now).0.pending)
  {
    assert NoEmptyBucket(Replied(s.pending, req, now));
    assert NoEmptyBucket(ApplySend(s, req, now).pending);
  }

  lemma ClearLeavesNoEmptyBucket(s: Proto, fx: seq<Effect>)
    requires NoEmptyBucket(s.pending)
    ensures NoEmptyBucket(ClearRecipient(s, fx).pending)
  {
  }

  lemma RestoreLeavesNoEmptyBucket(s: Proto, rb: Rollback)
    requires NoEmptyBucket(s.pending)
    ensures NoEmptyBucket(RestoreSender(s, rb).pending)
  {
    if rb.before.Some? {
      assert PutBack(Bucket(s.pending, rb.senderId), rb.before.value) != [];
    }
  }

  // Two daemons can pick the same message id, and a bucket can then hold it
  // twice. A failed final reply to one of the two askers loses its obligation.
  lemma CollidingIdsLoseAnObligation()
    ensures var a := Entry(7, "a", "", 0, 0, false);
            var b := Entry(7, "b", "", 0, 0, false);
            var s := Proto(9, map[], map[], map["w" := [a, b]]);
            var req := Request("w", "b", "done", false, Some(7), true);
            Fail(s, req, 1).pending == map["w" := [a]]
  {
    var a := Entry(7, "a", "", 0, 0, false);
    var b := Entry(7, "b", "", 0, 0, false);
    var s := Proto(9, map[], map[], map["w" := [a, b]]);
    var req := Request("w", "b", "done", false, Some(7), true);
    assert [a, b][1..] == [b] && [b][1..] == [];
    assert Retain([b], (e: Entry) => !IsReplyTo(e, 7, "b")) == [];
    assert WithoutReply([a, b], 7, "b") == [a];
    assert ApplySend(s, req, 1).pending == map["w" := [a]];
    SendReports(s, req);
  }
}
