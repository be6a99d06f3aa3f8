/** The edge worker's handling of inputs, results, acknowledgements and pauses. A turn's result is queued before it is
    published, stamped with the live lease at every publication, and leaves the queue only when central acknowledges it
    or the session is given up. */
module EdgeWorker {
  import opened Basics
  import opened OutboundQueue

  datatype Run = Run(leaseId: string, accepted: map<nat, string>)

  /** A result as published: the queued item under its own id, with the run's lease. */
  datatype Message = Message(eventId: string, kind: string, sessionId: string, leaseId: string, turnSeq: nat,
                             payload: string)

  function Stamp(x: Item, leaseId: string): Message {
    Message(x.queueId, x.kind, x.sessionId, leaseId, x.turnSeq, x.payload)
  }

  // ---------- What a flush publishes ----------

  predicate IsPending(x: Item, sessionId: string, run: Run) {
    x.sessionId == sessionId && x.turnSeq in run.accepted
  }

  function Pending(queue: seq<Item>, sessionId: string, run: Run): seq<Item> {
    if queue == [] then []
    else
      var rest, last := Pending(queue[..|queue| - 1], sessionId, run), queue[|queue| - 1];
      if IsPending(last, sessionId, run) then InsertByTurn(rest, last) else rest
  }

  /** Behind every item whose turn is not later: a stable sort inserts in queue order. */
  function InsertByTurn(xs: seq<Item>, x: Item): seq<Item> {
    if xs != [] && xs[|xs| - 1].turnSeq > x.turnSeq then InsertByTurn(xs[..|xs| - 1], x) + [xs[|xs| - 1]] else xs + [x]
  }

  predicate ByTurn(xs: seq<Item>) {
    forall i, j :: 0 <= i < j < |xs| ==> xs[i].turnSeq <= xs[j].turnSeq
  }

  lemma {:induction false} InsertedMembers(xs: seq<Item>, x: Item)
    ensures |InsertByTurn(xs, x)| == |xs| + 1
    ensures forall y :: y in InsertByTurn(xs, x) <==> y in xs || y == x
  {
    if xs != [] && xs[|xs| - 1].turnSeq > x.turnSeq {
      InsertedMembers(xs[..|xs| - 1], x);
      assert xs == xs[..|xs| - 1] + [xs[|xs| - 1]];
    }
  }

  lemma {:induction false} InsertKeepsOrder(xs: seq<Item>, x: Item)
    requires ByTurn(xs)
    ensures ByTurn(InsertByTurn(xs, x))
  {
    if xs != [] && xs[|xs| - 1].turnSeq > x.turnSeq {
      var front, last := xs[..|xs| - 1], xs[|xs| - 1];
      InsertKeepsOrder(front, x);
      InsertedMembers(front, x);
      forall i | 0 <= i < |xs| ensures InsertByTurn(front, x)[i].turnSeq <= last.turnSeq {
        assert InsertByTurn(front, x)[i] in front || InsertByTurn(front, x)[i] == x;
      }
    }
  }

  /** A flush publishes exactly the session's queued results for accepted turns, in turn order. */
  lemma {:induction false} PendingIsExact(queue: seq<Item>, sessionId: string, run: Run)
    ensures ByTurn(Pending(queue, sessionId, run))
    ensures forall x :: x in Pending(queue, sessionId, run) <==>
              x in queue && x.sessionId == sessionId && x.turnSeq in run.accepted
  {
    if queue != [] {
      var front, last := queue[..|queue| - 1], queue[|queue| - 1];
      PendingIsExact(front, sessionId, run);
      assert queue == front + [last];
      if IsPending(last, sessionId, run) {
        var rest := Pending(front, sessionId, run);
        InsertKeepsOrder(rest, last);
        InsertedMembers(rest, last);
      }
    }
  }

  /** The session's queued results for one turn, in queue order. */
  function QueuedFor(queue: seq<Item>, sessionId: string, turnSeq: nat): seq<Item> {
    if queue == [] then []
    else
      var rest, last := QueuedFor(queue[..|queue| - 1], sessionId, turnSeq), queue[|queue| - 1];
      if last.sessionId == sessionId && last.turnSeq == turnSeq then rest + [last] else rest
  }

  lemma {:induction false} InsertIsStable(xs: seq<Item>, x: Item, sessionId: string, turnSeq: nat)
    ensures QueuedFor(InsertByTurn(xs, x), sessionId, turnSeq) ==
            QueuedFor(xs, sessionId, turnSeq) + if x.sessionId == sessionId && x.turnSeq == turnSeq then [x] else []
  {
    if xs != [] && xs[|xs| - 1].turnSeq > x.turnSeq {
      var front, last := xs[..|xs| - 1], xs[|xs| - 1];
      InsertIsStable(front, x, sessionId, turnSeq);
      assert xs == front + [last];
      assert InsertByTurn(xs, x)[..|InsertByTurn(xs, x)| - 1] == InsertByTurn(front, x);
    } else {
      assert (xs + [x])[..|xs + [x]| - 1] == xs;
    }
  }

  /** Results of one turn are published as often as they are queued, and in the order they are queued in. */
  lemma {:induction false} PendingIsStable(queue: seq<Item>, sessionId: string, run: Run, turnSeq: nat)
    ensures QueuedFor(Pending(queue, sessionId, run), sessionId, turnSeq) ==
            if turnSeq in run.accepted then QueuedFor(queue, sessionId, turnSeq) else []
  {
    if queue != [] {
      var front, last := queue[..|queue| - 1], queue[|queue| - 1];
      PendingIsStable(front, sessionId, run, turnSeq);
      InsertIsStable(Pending(front, sessionId, run), last, sessionId, turnSeq);
      hide InsertByTurn;
    }
  }

  function StampAll(xs: seq<Item>, leaseId: string): (ms: seq<Message>)
    ensures |ms| == |xs| && forall i :: 0 <= i < |xs| ==> ms[i] == Stamp(xs[i], leaseId)
  {
    seq(|xs|, i requires 0 <= i < |xs| => Stamp(xs[i], leaseId))
  }

  // ---------- What a session's end discards ----------

  function WithoutSession(queue: seq<Item>, sessionId: string): (r: seq<Item>) {
    if queue == [] then []
    else WithoutSession(queue[..|queue| - 1], sessionId) + if queue[|queue| - 1].sessionId == sessionId then []
    else [queue[|queue| - 1]]
  }

  lemma {:induction false} WithoutSessionIsExact(queue: seq<Item>, sessionId: string)
    requires DistinctIds(queue)
    ensures DistinctIds(WithoutSession(queue, sessionId))
    ensures forall x :: x in WithoutSession(queue, sessionId) <==> x in queue && x.sessionId != sessionId
  {
    if queue != [] {
      var front := queue[..|queue| - 1];
      WithoutSessionIsExact(front, sessionId);
      assert queue == front + [queue[|queue| - 1]];
      forall x | x in WithoutSession(front, sessionId) ensures x.queueId != queue[|queue| - 1].queueId {
        assert x in front;
      }
    }
  }

  // ---------- The worker ----------

  datatype InputReply = UnknownSession | StaleLease | InputConflict | AcceptedAgain | Replayed | RunsTurn

  /** A result already queued for this very turn input. */
  predicate HasResult(queue: seq<Item>, sessionId: string, turnSeq: nat, digest: string) {
    exists i :: 0 <= i < |queue| && queue[i].sessionId == sessionId && queue[i].turnSeq == turnSeq
                && queue[i].digest == digest
  }

  /** `link` is how many more publications the transport will take before it goes down. */
  class Worker {
    var runs: map<string, Run>
    var completedPauses: set<(string, string)>
    const queue: WebStorageStore
    var sent: seq<Message>
    var link: nat

    constructor (queue: WebStorageStore)
      ensures this.queue == queue && runs == map[] && completedPauses == {} && sent == [] && link == 0
    {
      this.queue := queue;
      runs, completedPauses, sent, link := map[], {}, [], 0;
    }

    method HandleAssign(sessionId: string, leaseId: string)
      modifies this`runs, this`completedPauses
      ensures runs == old(runs)[sessionId := Run(leaseId, map[])]
      ensures completedPauses == set k | k in old(completedPauses) && k.0 != sessionId
    {
      completedPauses := set k | k in completedPauses && k.0 != sessionId;
      runs := runs[sessionId := Run(leaseId, map[])];
    }

    /** `handleInput` up to running the turn. A turn is run only if this run has not accepted it before and no result
        for this input is queued; a queued result is published again instead. */
    method HandleInput(sessionId: string, leaseId: string, turnSeq: nat, digest: string) returns (reply: InputReply)
      modifies this`runs, this`sent, this`link
      ensures reply.UnknownSession? <==> sessionId !in old(runs)
      ensures reply.StaleLease? <==> sessionId in old(runs) && old(runs)[sessionId].leaseId != leaseId
      ensures reply.RunsTurn? || reply.Replayed? ==>
                && turnSeq !in old(runs)[sessionId].accepted
                && runs == old(runs)[sessionId := Run(leaseId, old(runs)[sessionId].accepted[turnSeq := digest])]
                && (reply.Replayed? <==>
                      exists x :: x in queue.Contents() && x.sessionId == sessionId && x.turnSeq == turnSeq
                                  && x.digest == digest)
      ensures reply.AcceptedAgain? ==>
                turnSeq in old(runs)[sessionId].accepted && old(runs)[sessionId].accepted[turnSeq] == digest
      ensures reply.InputConflict? ==>
                turnSeq in old(runs)[sessionId].accepted && old(runs)[sessionId].accepted[turnSeq] != digest
      ensures !reply.RunsTurn? && !reply.Replayed? ==> runs == old(runs)
      ensures !reply.Replayed? ==> sent == old(sent)
      ensures reply.Replayed? ==> Published(old(sent), old(link), sent, link,
                                            StampAll(Pending(queue.Contents(), sessionId, runs[sessionId]), leaseId))
    {
      if sessionId !in runs {
        return UnknownSession;
      }
      var active := runs[sessionId];
      if active.leaseId != leaseId {
        return StaleLease;
      }
      if turnSeq in active.accepted {
        return if active.accepted[turnSeq] != digest then InputConflict else AcceptedAgain;
      }
      runs := runs[sessionId := active.(accepted := active.accepted[turnSeq := digest])];
      var items := queue.List();
      assert HasResult(items, sessionId, turnSeq, digest) ==> exists x :: x in items && x.sessionId == sessionId
                                                                          && x.turnSeq == turnSeq && x.digest == digest;
      if HasResult(items, sessionId, turnSeq, digest) {
        FlushRun(sessionId);
        return Replayed;
      }
      return RunsTurn;
    }

    /** `enqueueResultAndFlush`: the result is in the queue before anything is published, and stays there. */
    method EnqueueResultAndFlush(x: Item)
      modifies this`sent, this`link, queue
      ensures queue.Contents() == old(queue.Contents()) + [x] && old(sent) <= sent
      ensures if x.sessionId in runs then
                Published(old(sent), old(link), sent, link,
                          StampAll(Pending(queue.Contents(), x.sessionId, runs[x.sessionId]),
                                   runs[x.sessionId].leaseId))
              else sent == old(sent) && link == old(link)
      ensures x.sessionId in runs && x.turnSeq in runs[x.sessionId].accepted && link > 0 ==>
                Stamp(x, runs[x.sessionId].leaseId) in sent
    {
      queue.Add(x);
      if x.sessionId in runs {
        var xs := Pending(queue.Contents(), x.sessionId, runs[x.sessionId]);
        FlushRun(x.sessionId);
        PendingIsExact(queue.Contents(), x.sessionId, runs[x.sessionId]);
        if link > 0 && IsPending(x, x.sessionId, runs[x.sessionId]) {
          var i :| 0 <= i < |xs| && xs[i] == x;
          assert sent[|old(sent)| + i] == Stamp(x, runs[x.sessionId].leaseId);
        }
      }
    }

    /** `flushRun`: publish until the link goes down; nothing leaves the queue. */
    method FlushRun(sessionId: string)
      requires sessionId in runs
      modifies this`sent, this`link
      ensures Published(old(sent), old(link), sent, link,
                        StampAll(Pending(queue.Contents(), sessionId, runs[sessionId]), runs[sessionId].leaseId))
    {
      var active := runs[sessionId];
      var pending := Pending(queue.Contents(), sessionId, active);
      for i := 0 to |pending|
        invariant runs == old(runs) && link == old(link) - i
        invariant sent == old(sent) + StampAll(pending, active.leaseId)[..i]
      {
        if link == 0 {
          assert PublishedCount(old(link), |pending|) == i;
          return;
        }
        link := link - 1;
        sent := sent + [Stamp(pending[i], active.leaseId)];
      }
    }

    method HandleResultAcknowledged(resultEventId: string)
      modifies queue
      ensures queue.Contents() == WithoutAll(old(queue.Contents()), resultEventId)
    {
      var items := queue.List();
      var i := IndexOfItem(items, resultEventId);
      if i == |items| {
        NothingToRemove(items, resultEventId);
        return;
      }
      queue.Remove(resultEventId);
    }

    /** `handlePause`: the run ends and its undelivered results are given up, once; later requests are answered from
        memory. */
    method HandlePause(sessionId: string, leaseId: string) returns (answered: bool)
      requires DistinctIds(queue.Contents())
      modifies this`runs, this`completedPauses, queue
      ensures answered <==> (sessionId, leaseId) in old(completedPauses)
                            || (sessionId in old(runs) && old(runs)[sessionId].leaseId == leaseId)
      ensures answered ==> (sessionId, leaseId) in completedPauses
      ensures if answered && (sessionId, leaseId) !in old(completedPauses)
              then
                runs == old(runs) - {sessionId} && queue.Contents() == WithoutSession(old(queue.Contents()), sessionId)
              else runs == old(runs) && queue.Contents() == old(queue.Contents())
    {
      if (sessionId, leaseId) in completedPauses {
        return true;
      }
      if sessionId !in runs || runs[sessionId].leaseId != leaseId {
        return false;
      }
      DiscardQueuedResults(sessionId);
      runs := runs - {sessionId};
      completedPauses := completedPauses + {(sessionId, leaseId)};
      return true;
    }

    method DiscardQueuedResults(sessionId: string)
      requires DistinctIds(queue.Contents())
      modifies queue
      ensures queue.Contents() == WithoutSession(old(queue.Contents()), sessionId)
    {
      var items := queue.List();
      assert PartlyDiscarded(items, sessionId, 0) == items;
      for i := 0 to |items|
        invariant queue.Contents() == PartlyDiscarded(items, sessionId, i)
      {
        DiscardStep(items, sessionId, i);
        hide PartlyDiscarded, WithoutAll;
        if items[i].sessionId == sessionId {
          queue.Remove(items[i].queueId);
        }
      }
      assert items[..|items|] == items;
    }
  }

  function PartlyDiscarded(items: seq<Item>, sessionId: string, i: nat): seq<Item>
    requires i <= |items|
  {
    WithoutSession(items[..i], sessionId) + items[i..]
  }

  lemma DiscardStep(items: seq<Item>, sessionId: string, i: nat)
    requires i < |items| && DistinctIds(items)
    ensures PartlyDiscarded(items, sessionId, i + 1) ==
            if items[i].sessionId == sessionId then WithoutAll(PartlyDiscarded(items, sessionId, i), items[i].queueId)
            else PartlyDiscarded(items, sessionId, i)
  {
    var kept, tail, q := WithoutSession(items[..i], sessionId), items[i..], items[i].queueId;
    assert items[..i + 1][..i] == items[..i];
    assert tail == [items[i]] + items[i + 1..];
    NoneOfIt(items, sessionId, i);
    hide DistinctIds, WithoutAll;
    if items[i].sessionId == sessionId {
      DropMiddle(kept, items[i], items[i + 1..], q);
    } else {
      assert (kept + [items[i]]) + items[i + 1..] == kept + tail;
    }
  }

  lemma NoneOfIt(items: seq<Item>, sessionId: string, i: nat)
    requires i < |items| && DistinctIds(items)
    ensures NoneHas(WithoutSession(items[..i], sessionId), items[i].queueId)
    ensures NoneHas(items[i + 1..], items[i].queueId)
  {
    var kept := WithoutSession(items[..i], sessionId);
    WithoutSessionIsExact(items[..i], sessionId);
    forall j | 0 <= j < |kept| ensures kept[j].queueId != items[i].queueId {
      assert kept[j] in items[..i];
    }
  }

  lemma DropMiddle(kept: seq<Item>, x: Item, rest: seq<Item>, q: string)
    requires x.queueId == q && NoneHas(kept, q) && NoneHas(rest, q)
    ensures WithoutAll(kept + ([x] + rest), q) == kept + rest
  {
    NothingToRemove(kept, q);
    NothingToRemove(rest, q);
    assert ([x] + rest)[1..] == rest;
    assert WithoutAll([x] + rest, q) == rest;
    WithoutAllConcat(kept, [x] + rest, q);
  }

  lemma {:induction false} WithoutAllConcat(a: seq<Item>, b: seq<Item>, q: string)
    ensures WithoutAll(a + b, q) == WithoutAll(a, q) + WithoutAll(b, q)
  {
    if a == [] {
      assert a + b == b;
    } else {
      assert (a + b)[1..] == a[1..] + b;
      WithoutAllConcat(a[1..], b, q);
    }
  }

  function PublishedCount(link: nat, n: nat): nat {
    if link < n then link else n
  }

  /** As much of `ms` as the link takes has been published, in order. */
  predicate Published(sent0: seq<Message>, link0: nat, sent: seq<Message>, link: nat, ms: seq<Message>) {
    var n := PublishedCount(link0, |ms|);
    sent == sent0 + ms[..n] && link == link0 - n
  }
}
