// Buckets of outstanding reply obligations: one sequence of entries for each
// session that owes replies. The functions here are the sequence operations the
// daemon uses on a bucket (retain, find, replace the first match), and the
// lemmas say what each of them keeps.

module Entries {
  import opened Options

  datatype Entry = Entry(
    msgId: nat,
    from: string,
    message: string,
    receivedAt: int,
    lastActivity: int,
    inProgress: bool)

  type Pending = map<string, seq<Entry>>

  // ----- a single bucket -----

  function Retain(es: seq<Entry>, keep: Entry -> bool): (r: seq<Entry>)
    ensures forall e :: e in r <==> e in es && keep(e)
    ensures |r| <= |es|
  {
    if es == [] then []
    else (if keep(es[0]) then [es[0]] else []) + Retain(es[1..], keep)
  }

  function Find(es: seq<Entry>, id: nat): (r: Option<Entry>)
    ensures r.Some? ==> r.value in es && r.value.msgId == id
    ensures r.None? ==> forall e :: e in es ==> e.msgId != id
  {
    if es == [] then None
    else if es[0].msgId == id then Some(es[0])
    else Find(es[1..], id)
  }

  // A progress reply marks the first entry with this id and asker.
  function MarkProgress(es: seq<Entry>, id: nat, asker: string, now: int): (r: seq<Entry>)
    ensures |r| == |es|
    ensures forall i :: 0 <= i < |es| ==> r[i].msgId == es[i].msgId && r[i].from == es[i].from
  {
    if es == [] then []
    else if es[0].msgId == id && es[0].from == asker then
      [es[0].(lastActivity := now, inProgress := true)] + es[1..]
    else [es[0]] + MarkProgress(es[1..], id, asker, now)
  }

  // Put a captured entry back: over the first entry with its id, else at the end.
  function PutBack(es: seq<Entry>, entry: Entry): seq<Entry> {
    if es == [] then [entry]
    else if es[0].msgId == entry.msgId then [entry] + es[1..]
    else [es[0]] + PutBack(es[1..], entry)
  }

  ghost predicate DistinctIds(es: seq<Entry>) {
    forall i, j :: 0 <= i < j < |es| ==> es[i].msgId != es[j].msgId
  }

  predicate IsReplyTo(e: Entry, id: nat, asker: string) {
    e.msgId == id && e.from == asker
  }

  function Matching(es: seq<Entry>, id: nat, asker: string): (r: seq<Entry>)
    ensures forall e :: e in r <==> e in es && IsReplyTo(e, id, asker)
  {
    Retain(es, (e: Entry) => IsReplyTo(e, id, asker))
  }

  function WithoutReply(es: seq<Entry>, id: nat, asker: string): (r: seq<Entry>)
    ensures forall e :: e in r <==> e in es && !IsReplyTo(e, id, asker)
  {
    Retain(es, (e: Entry) => !IsReplyTo(e, id, asker))
  }

  function WithId(es: seq<Entry>, id: nat): (r: seq<Entry>)
    ensures forall e :: e in r <==> e in es && e.msgId == id
  {
    Retain(es, (e: Entry) => e.msgId == id)
  }

  function WithoutId(es: seq<Entry>, id: nat): (r: seq<Entry>)
    ensures forall e :: e in r <==> e in es && e.msgId != id
  {
    Retain(es, (e: Entry) => e.msgId != id)
  }

  function WithoutAsker(es: seq<Entry>, asker: string): (r: seq<Entry>)
    ensures forall e :: e in r <==> e in es && e.from != asker
  {
    Retain(es, (e: Entry) => e.from != asker)
  }

  lemma {:induction false} RetainDistinct(es: seq<Entry>, keep: Entry -> bool)
    requires DistinctIds(es)
    ensures DistinctIds(Retain(es, keep))
  {
    if es != [] {
      RetainDistinct(es[1..], keep);
      var rest := Retain(es[1..], keep);
      forall k | 0 <= k < |rest|
        ensures rest[k].msgId != es[0].msgId
      {
        assert rest[k] in es[1..];
        var i :| 0 <= i < |es[1..]| && es[1..][i] == rest[k];
        assert es[i + 1] == rest[k];
      }
    }
  }

  lemma {:induction false} RetainAll(es: seq<Entry>, keep: Entry -> bool)
    requires forall e :: e in es ==> keep(e)
    ensures Retain(es, keep) == es
  {
    if es != [] {
      RetainAll(es[1..], keep);
    }
  }

  lemma {:induction false} RetainNone(es: seq<Entry>, keep: Entry -> bool)
    requires forall e :: e in es ==> !keep(e)
    ensures Retain(es, keep) == []
  {
    if es != [] {
      RetainNone(es[1..], keep);
    }
  }

  // Retaining and discarding split a bucket, counting repetitions.
  lemma {:induction false} RetainSplits(es: seq<Entry>, keep: Entry -> bool, drop: Entry -> bool)
    requires forall e :: keep(e) != drop(e)
    ensures multiset(es) == multiset(Retain(es, keep)) + multiset(Retain(es, drop))
    ensures |es| == |Retain(es, keep)| + |Retain(es, drop)|
  {
    if es != [] {
      RetainSplits(es[1..], keep, drop);
      assert es == [es[0]] + es[1..];
    }
  }

  lemma {:induction false} RetainConcat(a: seq<Entry>, b: seq<Entry>, keep: Entry -> bool)
    ensures Retain(a + b, keep) == Retain(a, keep) + Retain(b, keep)
  {
    if a == [] {
      assert a + b == b;
    } else {
      assert (a + b)[1..] == a[1..] + b;
      RetainConcat(a[1..], b, keep);
    }
  }

  lemma {:induction false} FindPutBack(es: seq<Entry>, entry: Entry)
    ensures Find(es, entry.msgId) == Some(entry) ==> PutBack(es, entry) == es
    ensures Find(es, entry.msgId).Some? ==> |PutBack(es, entry)| == |es|
  {
    if es != [] && es[0].msgId != entry.msgId {
      FindPutBack(es[1..], entry);
    }
  }

  // With one entry for each id, putting back an entry of the same asker over
  // the current one changes no (id, asker) pair.
  lemma {:induction false} PutBackShape(es: seq<Entry>, entry: Entry)
    requires Find(es, entry.msgId).Some?
    requires Find(es, entry.msgId).value.from == entry.from
    ensures |PutBack(es, entry)| == |es|
    ensures forall i :: 0 <= i < |es| ==>
              PutBack(es, entry)[i].msgId == es[i].msgId && PutBack(es, entry)[i].from == es[i].from
  {
    if es[0].msgId != entry.msgId {
      PutBackShape(es[1..], entry);
    }
  }

  lemma {:induction false} MarkProgressFind(es: seq<Entry>, id: nat, asker: string, now: int)
    ensures Find(es, id).Some? <==> Find(MarkProgress(es, id, asker, now), id).Some?
    ensures Find(es, id).Some? ==>
              Find(MarkProgress(es, id, asker, now), id).value.from == Find(es, id).value.from
    // The first entry with the id is the one the mark touched: putting the captured one back undoes the mark.
    ensures Find(es, id).Some? && Find(es, id).value.from == asker ==>
              PutBack(MarkProgress(es, id, asker, now), Find(es, id).value) == es
    // Otherwise the mark, if any, fell on a later entry and the captured one is still in place.
    ensures Find(es, id).Some? && Find(es, id).value.from != asker ==>
              Find(MarkProgress(es, id, asker, now), id) == Find(es, id)
  {
    if es != [] {
      if es[0].msgId == id {
        if es[0].from != asker {
          assert MarkProgress(es, id, asker, now)[0] == es[0];
        }
      } else {
        MarkProgressFind(es[1..], id, asker, now);
        var m := MarkProgress(es, id, asker, now);
        assert m == [es[0]] + MarkProgress(es[1..], id, asker, now);
        assert m[1..] == MarkProgress(es[1..], id, asker, now);
      }
    }
  }

  // A mark leaves the bucket as it was exactly when no entry matches or the
  // first match already carries it.
  lemma {:induction false} MarkProgressMultiset(es: seq<Entry>, id: nat, asker: string, now: int)
    ensures multiset(MarkProgress(es, id, asker, now)) == multiset(es) <==>
            (Matching(es, id, asker) == [] || Marked(Matching(es, id, asker)[0], now))
  {
    if es != [] {
      assert es == [es[0]] + es[1..];
      if IsReplyTo(es[0], id, asker) {
        assert Matching(es, id, asker)[0] == es[0];
        SwapHead(es[0].(lastActivity := now, inProgress := true), es[0], es[1..]);
      } else {
        MarkProgressMultiset(es[1..], id, asker, now);
        assert Matching(es, id, asker) == Matching(es[1..], id, asker);
        SameHead(es[0], MarkProgress(es[1..], id, asker, now), es[1..]);
      }
    }
  }

  lemma SwapHead(x: Entry, y: Entry, rest: seq<Entry>)
    ensures multiset([x] + rest) == multiset([y] + rest) <==> x == y
  {
    assert multiset([x] + rest)[x] == 1 + multiset(rest)[x];
    assert x != y ==> multiset([y] + rest)[x] == multiset(rest)[x];
  }

  lemma SameHead(x: Entry, a: seq<Entry>, b: seq<Entry>)
    ensures multiset([x] + a) == multiset([x] + b) <==> multiset(a) == multiset(b)
  {
    assert multiset([x] + a) - multiset{x} == multiset(a);
    assert multiset([x] + b) - multiset{x} == multiset(b);
  }

  predicate Marked(e: Entry, now: int) {
    e.inProgress && e.lastActivity == now
  }

  // ----- all buckets -----

  function Bucket(p: Pending, owner: string): seq<Entry> {
    if owner in p then p[owner] else []
  }

  // Store a bucket; an empty one is removed from the map.
  function Store(p: Pending, owner: string, es: seq<Entry>): (r: Pending)
    ensures Bucket(r, owner) == es
    ensures forall o :: o != owner ==> Bucket(r, o) == Bucket(p, o) && (o in r <==> o in p)
    ensures owner in r <==> es != []
  {
    if es == [] then p - {owner} else p[owner := es]
  }

  ghost predicate NoEmptyBucket(p: Pending) {
    forall o :: o in p ==> p[o] != []
  }

  ghost predicate AllDistinct(p: Pending) {
    forall o :: o in p ==> DistinctIds(p[o])
  }
}
