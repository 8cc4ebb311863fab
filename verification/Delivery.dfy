// Executing the effects of a send: how the answers of the transports combine
// into one outcome, and what the message log records.

module Delivery {
  import opened SendState

  datatype Outcome = Accepted | Queued(reason: string) | Ambiguous(reason: string) | Rejected(reason: string)

  // Effect position and the delivered flag that was logged there.
  datatype LogRecord = LogRecord(at: nat, delivered: bool)

  function Combine(left: Outcome, right: Outcome): Outcome {
    match (left, right)
    case (Rejected(_), _) => left
    case (_, Rejected(_)) => right
    case (Ambiguous(_), _) => left
    case (_, Ambiguous(_)) => right
    case (Queued(_), _) => left
    case (_, Queued(_)) => right
    case (Accepted, Accepted) => Accepted
  }

  function Severity(o: Outcome): nat {
    match o
    case Accepted => 0
    case Queued(_) => 1
    case Ambiguous(_) => 2
    case Rejected(_) => 3
  }

  // o is the first of the greatest severity; with nothing to report, Accepted.
  ghost predicate FirstWorst(os: seq<Outcome>, o: Outcome) {
    if os == [] then o == Accepted
    else exists k: nat :: FirstWorstAt(os, o, k)
  }

  ghost predicate FirstWorstAt(os: seq<Outcome>, o: Outcome, k: nat) {
    && k < |os|
    && os[k] == o
    && (forall j :: 0 <= j < k ==> Severity(os[j]) < Severity(o))
    && (forall j :: 0 <= j < |os| ==> Severity(os[j]) <= Severity(o))
  }

  lemma FirstWorstIsUnique(os: seq<Outcome>, o: Outcome, p: Outcome)
    requires FirstWorst(os, o) && FirstWorst(os, p)
    ensures o == p
  {
    if os != [] {
      var k: nat :| FirstWorstAt(os, o, k);
      var l: nat :| FirstWorstAt(os, p, l);
      assert !(k < l) && !(l < k);
    }
  }

  lemma CombineKeepsFirstWorst(os: seq<Outcome>, o: Outcome, next: Outcome)
    requires FirstWorst(os, o)
    ensures FirstWorst(os + [next], Combine(o, next))
  {
    if os == [] {
      assert os + [next] == [next];
      assert FirstWorstAt([next], next, 0);
    } else {
      var k: nat :| FirstWorstAt(os, o, k);
      if Severity(next) <= Severity(o) {
        assert FirstWorstAt(os + [next], o, k);
      } else {
        assert FirstWorstAt(os + [next], next, |os|);
      }
    }
  }

  predicate Delivers(effect: Effect) {
    effect.InjectMessage? || effect.DeliverHttp?
  }

  // The answers of the delivering effects among the first n, in order.
  function Answered(fx: seq<Effect>, answers: seq<Outcome>, n: nat): seq<Outcome>
    requires |answers| == |fx| && n <= |fx|
  {
    if n == 0 then []
    else if Delivers(fx[n - 1]) then Answered(fx, answers, n - 1) + [answers[n - 1]]
    else Answered(fx, answers, n - 1)
  }

  ghost predicate AllAcceptedBefore(fx: seq<Effect>, answers: seq<Outcome>, i: nat)
    requires |answers| == |fx| && i <= |fx|
  {
    forall j :: 0 <= j < i && Delivers(fx[j]) ==> answers[j] == Accepted
  }

  // A log record says delivered only if its effect does and every earlier
  // delivery of the same send was confirmed.
  ghost predicate HonestLog(fx: seq<Effect>, answers: seq<Outcome>, log: seq<LogRecord>, upTo: nat)
    requires |answers| == |fx| && upTo <= |fx|
  {
    && (forall r :: r in log ==>
          && r.at < upTo
          && fx[r.at].LogMessage?
          && (r.delivered <==> fx[r.at].delivered && AllAcceptedBefore(fx, answers, r.at)))
    && (forall i :: 0 <= i < upTo && fx[i].LogMessage? ==> exists r :: r in log && r.at == i)
    && (forall i, j :: 0 <= i < j < |log| ==> log[i].at < log[j].at)
  }

  lemma {:induction false} AnsweredMembers(fx: seq<Effect>, answers: seq<Outcome>, n: nat)
    requires |answers| == |fx| && n <= |fx|
    ensures forall o :: o in Answered(fx, answers, n) ==> exists j :: 0 <= j < n && Delivers(fx[j]) && answers[j] == o
    ensures forall j :: 0 <= j < n && Delivers(fx[j]) ==> answers[j] in Answered(fx, answers, n)
  {
    if n > 0 {
      AnsweredMembers(fx, answers, n - 1);
    }
  }

  lemma FirstWorstBounds(os: seq<Outcome>, o: Outcome)
    requires FirstWorst(os, o)
    ensures forall a :: a in os ==> Severity(a) <= Severity(o)
    ensures o != Accepted ==> o in os
  {
  }

  lemma AnsweredAccepted(fx: seq<Effect>, answers: seq<Outcome>, n: nat, o: Outcome)
    requires |answers| == |fx| && n <= |fx|
    requires FirstWorst(Answered(fx, answers, n), o)
    ensures o == Accepted <==> AllAcceptedBefore(fx, answers, n)
  {
    AnsweredMembers(fx, answers, n);
    FirstWorstBounds(Answered(fx, answers, n), o);
  }

  // The record to append at a log effect, given the outcome so far.
  lemma LogNext(fx: seq<Effect>, answers: seq<Outcome>, log: seq<LogRecord>, i: nat, outcome: Outcome)
    requires |answers| == |fx| && i < |fx| && fx[i].LogMessage?
    requires HonestLog(fx, answers, log, i)
    requires outcome == Accepted <==> AllAcceptedBefore(fx, answers, i)
    ensures HonestLog(fx, answers, log + [LogRecord(i, outcome == Accepted && fx[i].delivered)], i + 1)
  {
    var record := LogRecord(i, outcome == Accepted && fx[i].delivered);
    assert forall r :: r in log + [record] <==> r in log || r == record;
    assert forall k :: 0 <= k < |log| ==> log[k] in log;
  }

  lemma LogSkip(fx: seq<Effect>, answers: seq<Outcome>, log: seq<LogRecord>, i: nat)
    requires |answers| == |fx| && i < |fx| && !fx[i].LogMessage?
    requires HonestLog(fx, answers, log, i)
    ensures HonestLog(fx, answers, log, i + 1)
  {
  }

  // answers[i] is what the transport said about effect i, if that effect delivers.
  method ExecuteSendEffects(fx: seq<Effect>, answers: seq<Outcome>) returns (outcome: Outcome, log: seq<LogRecord>)
    requires |answers| == |fx|
    ensures FirstWorst(Answered(fx, answers, |fx|), outcome)
    ensures HonestLog(fx, answers, log, |fx|)
  {
    outcome, log := Accepted, [];
    var i := 0;
    while i < |fx|
      invariant i <= |fx|
      invariant FirstWorst(Answered(fx, answers, i), outcome)
      invariant HonestLog(fx, answers, log, i)
    {
      if fx[i].LogMessage? {
        AnsweredAccepted(fx, answers, i, outcome);
        LogNext(fx, answers, log, i, outcome);
        log := log + [LogRecord(i, outcome == Accepted && fx[i].delivered)];
      } else {
        LogSkip(fx, answers, log, i);
        if Delivers(fx[i]) {
          CombineKeepsFirstWorst(Answered(fx, answers, i), outcome, answers[i]);
          outcome := Combine(outcome, answers[i]);
        }
      }
      i := i + 1;
    }
  }

  // For the effects a send really produces, the log and the outcome agree: the
  // one message logged is recorded as delivered exactly when the send reports
  // plain acceptance.
  lemma SendLogsItsOutcome(s: Proto, req: Request, answers: seq<Outcome>, outcome: Outcome, log: seq<LogRecord>)
    requires Routed(s, req)
    requires |answers| == |SendEffects(s, req)|
    requires FirstWorst(Answered(SendEffects(s, req), answers, |answers|), outcome)
    requires HonestLog(SendEffects(s, req), answers, log, |answers|)
    ensures log == [LogRecord(1, outcome == Accepted)]
  {
    var fx := SendEffects(s, req);
    RoutedShape(s, req);
    AnsweredAccepted(fx, answers, 3, outcome);
    OneLog(fx, answers, log, 1);
  }

  // What a routed send reports is what the transport said about a local
  // recipient, whose message is typed or posted; what is broadcast to another
  // daemon or sent to a person answers nothing and counts as accepted.
  lemma RecipientDecides(s: Proto, req: Request, answers: seq<Outcome>, outcome: Outcome)
    requires Routed(s, req)
    requires |answers| == |SendEffects(s, req)|
    requires FirstWorst(Answered(SendEffects(s, req), answers, |answers|), outcome)
    ensures outcome == if s.sessions[req.to].origin.Local? then answers[0] else Accepted
  {
    var fx := SendEffects(s, req);
    RoutedShape(s, req);
    assert Answered(fx, answers, 1) == Answered(fx, answers, 2) == Answered(fx, answers, 3);
    assert Answered(fx, answers, 1) == if s.sessions[req.to].origin.Local? then [answers[0]] else [];
    if s.sessions[req.to].origin.Local? {
      assert FirstWorstAt([answers[0]], answers[0], 0);
      FirstWorstIsUnique([answers[0]], outcome, answers[0]);
    }
  }

  lemma RoutedShape(s: Proto, req: Request)
    requires Routed(s, req)
    ensures var fx := SendEffects(s, req);
            && |fx| == 3
            && !fx[0].LogMessage? && fx[1].LogMessage? && fx[1].delivered && fx[2].SendDelivered?
  {
  }

  lemma OneLog(fx: seq<Effect>, answers: seq<Outcome>, log: seq<LogRecord>, at: nat)
    requires |answers| == |fx| && at < |fx|
    requires forall i :: 0 <= i < |fx| ==> (fx[i].LogMessage? <==> i == at)
    requires HonestLog(fx, answers, log, |fx|)
    ensures log == [LogRecord(at, fx[at].delivered && AllAcceptedBefore(fx, answers, at))]
  {
    assert forall i :: 0 <= i < |log| ==> log[i] in log && log[i].at == at;
    assert fx[at].LogMessage?;
    var r :| r in log && r.at == at;
    assert log[0].at == log[|log| - 1].at;
  }
}
