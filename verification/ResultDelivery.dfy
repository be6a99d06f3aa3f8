/** Exactly-once delivery of turn results. The edge worker queues a result before publishing it under its queue id;
    central logs each event id once, and only then acknowledges; the edge forgets a result only when acknowledged. The
    network may lose, repeat and reorder anything, the edge may reload, central may die at any point. */
module ResultDelivery {
  import opened Basics
  import opened OutboundQueue
  import opened EdgeWorker
  import SL = SessionLog

  /** `net` is every result ever published and `acks` every acknowledgement ever sent: a message may arrive any number
      of times or never. `made` and `discarded` remember which results were queued and which were given up. */
  datatype World = World(
    runs: map<string, Run>,
    queue: seq<Item>,
    net: set<Message>,
    acks: set<string>,
    central: map<string, SL.State>,
    made: map<string, Item>,
    discarded: set<string>)

  /** How far central gets with a result it received. A projection that fails is a death before acknowledging. */
  datatype Fate = DiesFirst | DiesAfterAppend | DiesBeforeAck | Acknowledges

  datatype Step =
    | Assigned(sessionId: string, leaseId: string)
    | InputAccepted(sessionId: string, turnSeq: nat, digest: string)
    | TurnEnded(item: Item)
    | Flushed(sessionId: string, sent: nat)
    | AckArrived(queueId: string)
    | PausedOrDropped(sessionId: string)
    | Reloaded
    | CentralLeased(sessionId: string, current: Option<string>)
    | CentralReceived(m: Message, fate: Fate)
    | CentralOther(sessionId: string, event: SL.Incoming, options: SL.Options, dies: bool)

  // ---------- Central's handling of one result ----------

  function AsEvent(m: Message): SL.Incoming {
    SL.Incoming(m.eventId, m.kind, Some(m.turnSeq), m.payload, Some(m.leaseId))
  }

  function ResultOptions(): SL.Options {
    SL.Options(true, None, None)
  }

  /** The session afterwards, and whether an acknowledgement was sent: the log first, then the projection, then the
      acknowledgement. */
  function Receive(st: SL.State, m: Message, fate: Fate): (SL.State, bool) {
    match fate
    case DiesFirst => (st, false)
    case DiesAfterAppend => (SL.DiesAfterAppend(st, AsEvent(m), ResultOptions()), false)
    case DiesBeforeAck => (SL.Deliver(st, AsEvent(m), ResultOptions()).0, false)
    case Acknowledges =>
      var (st', outcome) := SL.Deliver(st, AsEvent(m), ResultOptions());
      (st', outcome.Accepted?)
  }

  // ---------- Steps ----------

  predicate LogHas(st: SL.State, eventId: string) {
    exists i :: 0 <= i < |st.log| && st.log[i].eventId == eventId
  }

  /** Queue ids and event ids are UUIDs. */
  ghost predicate Enabled(w: World, s: Step) {
    match s
    case InputAccepted(sessionId, _, _) => sessionId in w.runs
    case TurnEnded(x) => x.queueId !in w.made && forall c :: c in w.central ==> !LogHas(w.central[c], x.queueId)
    case Flushed(sessionId, _) => sessionId in w.runs
    case AckArrived(queueId) => queueId in w.acks
    case CentralReceived(m, _) => m in w.net
    case CentralOther(_, event, _, _) => event.eventId !in w.made
    case _ => true
  }

  function Prefix<T>(s: seq<T>, n: nat): seq<T> {
    if n <= |s| then s[..n] else s
  }

  function ItemIds(queue: seq<Item>, sessionId: string): set<string> {
    set i | 0 <= i < |queue| && queue[i].sessionId == sessionId :: queue[i].queueId
  }

  function Next(w: World, s: Step): World {
    match s
    case Assigned(sessionId, leaseId) => w.(runs := w.runs[sessionId := Run(leaseId, map[])])
    case InputAccepted(sessionId, turnSeq, digest) =>
      if sessionId !in w.runs then w
      else
        var run := w.runs[sessionId];
        w.(runs := w.runs[sessionId := run.(accepted := run.accepted[turnSeq := digest])])
    case TurnEnded(x) => w.(queue := w.queue + [x], made := w.made[x.queueId := x])
    case Flushed(sessionId, sent) =>
      if sessionId !in w.runs then w
      else
        var run := w.runs[sessionId];
        var ms := Prefix(StampAll(Pending(w.queue, sessionId, run), run.leaseId), sent);
        w.(net := w.net + set m | m in ms)
    case AckArrived(queueId) => w.(queue := WithoutAll(w.queue, queueId))
    case PausedOrDropped(sessionId) =>
      w.(runs := w.runs - {sessionId}, queue := WithoutSession(w.queue, sessionId),
         discarded := w.discarded + ItemIds(w.queue, sessionId))
    case Reloaded => w.(runs := map[])
    case CentralLeased(sessionId, leaseId) =>
      if sessionId !in w.central then w
      else w.(central := w.central[sessionId := SL.Take(w.central[sessionId], SL.Leased(leaseId))])
    case CentralReceived(m, fate) =>
      if m.sessionId !in w.central then w
      else
        var (st, acked) := Receive(w.central[m.sessionId], m, fate);
        w.(central := w.central[m.sessionId := st], acks := w.acks + if acked then {m.eventId} else {})
    case CentralOther(sessionId, event, options, dies) =>
      if sessionId !in w.central then w
      else
        var step := if dies then SL.Died(event, options) else SL.Delivered(event, options);
        w.(central := w.central[sessionId := SL.Take(w.central[sessionId], step)])
  }

  ghost predicate StepTo(w: World, s: Step, w': World) {
    Enabled(w, s) && w' == Next(w, s)
  }

  /** A run: one more world than steps. */
  ghost predicate IsRun(ws: seq<World>, steps: seq<Step>) {
    |ws| == |steps| + 1 && Initial(ws[0]) && forall i :: 0 <= i < |steps| ==> StepTo(ws[i], steps[i], ws[i + 1])
  }

  /** Nothing queued, nothing sent, no session has logged anything. */
  predicate Initial(w: World) {
    && w.queue == [] && w.net == {} && w.acks == {} && w.made == map[] && w.discarded == {}
    && forall c :: c in w.central ==> w.central[c].log == []
  }

  // ---------- Invariant ----------

  /** Copies of a result, wherever they are, are the result that was queued. */
  predicate IsCopy(m: Message, x: Item) {
    m == Stamp(x, m.leaseId)
  }

  predicate IsEntryOf(e: SL.LogEntry, x: Item) {
    e.eventId == x.queueId && e.kind == x.kind && e.turnSeq == Some(x.turnSeq) && e.payload == x.payload
  }

  ghost predicate QueueInv(w: World) {
    && DistinctIds(w.queue)
    && (forall x :: x in w.queue ==> x.queueId in w.made && w.made[x.queueId] == x)
    && forall q :: q in w.made ==> w.made[q].queueId == q
  }

  ghost predicate NetInv(w: World) {
    forall m :: m in w.net ==> m.eventId in w.made && IsCopy(m, w.made[m.eventId])
  }

  /** A session's log has each event id once; a result's entry is in its own session's log and is a copy. */
  ghost predicate LogInv(w: World, c: string)
    requires c in w.central
  {
    && SL.UniqueIds(w.central[c].log)
    && forall i :: 0 <= i < |w.central[c].log| && w.central[c].log[i].eventId in w.made ==>
         && w.made[w.central[c].log[i].eventId].sessionId == c
         && IsEntryOf(w.central[c].log[i], w.made[w.central[c].log[i].eventId])
  }

  ghost predicate Logged(w: World, q: string) {
    q in w.made && w.made[q].sessionId in w.central && LogHas(w.central[w.made[q].sessionId], q)
  }

  ghost predicate InQueue(w: World, q: string) {
    exists i :: 0 <= i < |w.queue| && w.queue[i].queueId == q
  }

  ghost predicate Inv(w: World) {
    && QueueInv(w) && NetInv(w)
    && (forall c :: c in w.central ==> LogInv(w, c))
    && (forall q :: q in w.acks ==> Logged(w, q))
    && (forall q :: q in w.made ==> InQueue(w, q) || q in w.discarded || Logged(w, q))
  }

  // ---------- Central's log under one result ----------

  lemma FindsEvent(st: SL.State, eventId: string)
    ensures LogHas(st, eventId) <==> SL.IndexOfEvent(st.log, eventId) < |st.log|
  {
  }

  /** Receiving a copy of a result leaves the log as it is or adds the one entry for it, and an acknowledgement means
      the entry is there. */
  lemma ReceiveKeeps(st: SL.State, m: Message, x: Item, fate: Fate)
    requires SL.UniqueIds(st.log) && IsCopy(m, x)
    requires forall i :: 0 <= i < |st.log| && st.log[i].eventId == m.eventId ==> IsEntryOf(st.log[i], x)
    ensures var (st', acked) := Receive(st, m, fate);
            && (st'.log == st.log || (!LogHas(st, m.eventId) && |st'.log| == |st.log| + 1
                                      && st'.log[..|st.log|] == st.log && IsEntryOf(st'.log[|st.log|], x)))
            && (acked ==> LogHas(st', m.eventId))
  {
    FindsEvent(st, m.eventId);
    var st' := Receive(st, m, fate).0;
    var i := SL.IndexOfEvent(st.log, m.eventId);
    if i == |st.log| && st'.log != st.log {
      assert st'.log == st.log + [SL.NewEntry(st.session, AsEvent(m))];
      assert st'.log[|st.log|].eventId == m.eventId;
    }
  }

  /** A result that is logged is acknowledged again whenever a copy arrives and central lives, whatever the lease by
      then. */
  lemma LoggedIsAcknowledged(w: World, m: Message)
    requires Inv(w) && m in w.net && Logged(w, m.eventId)
    ensures Receive(w.central[m.sessionId], m, Acknowledges).1
  {
    FindsEvent(w.central[m.sessionId], m.eventId);
    assert LogInv(w, m.sessionId);
  }

  // ---------- Every step keeps the invariant ----------

  /** Central's logs only grow, so what was logged stays logged. */
  predicate LogsGrow(w: World, w': World) {
    w'.central.Keys == w.central.Keys && forall c :: c in w.central ==> w.central[c].log <= w'.central[c].log
  }

  lemma LoggedStays(w: World, w': World, q: string)
    requires Logged(w, q) && LogsGrow(w, w') && q in w'.made && w'.made[q] == w.made[q]
    ensures Logged(w', q)
  {
    var c := w.made[q].sessionId;
    var i :| 0 <= i < |w.central[c].log| && w.central[c].log[i].eventId == q;
    assert w'.central[c].log[i] == w.central[c].log[i];
  }

  lemma EndKeeps(w: World, x: Item)
    requires Inv(w) && Enabled(w, TurnEnded(x))
    ensures Inv(Next(w, TurnEnded(x)))
  {
    var w' := Next(w, TurnEnded(x));
    EndKeepsQueue(w, x);
    EndKeepsLogs(w, x);
    hide IsCopy, IsEntryOf, SL.UniqueIds, LogHas, QueueInv, LogInv;
    assert forall q :: Logged(w, q) ==> Logged(w', q);
    forall q | q in w'.made ensures InQueue(w', q) || q in w'.discarded || Logged(w', q) {
      if q == x.queueId {
        assert w'.queue[|w.queue|].queueId == q;
      } else if InQueue(w, q) {
        var i :| 0 <= i < |w.queue| && w.queue[i].queueId == q;
        assert w'.queue[i].queueId == q;
      }
    }
  }

  lemma EndKeepsQueue(w: World, x: Item)
    requires QueueInv(w) && x.queueId !in w.made
    ensures QueueInv(Next(w, TurnEnded(x)))
  {
    var w' := Next(w, TurnEnded(x));
    forall i | 0 <= i < |w.queue| ensures w.queue[i].queueId != x.queueId {
      assert w.queue[i] in w.queue;
    }
    assert forall y :: y in w'.queue ==> y in w.queue || y == x;
  }

  lemma EndKeepsLogs(w: World, x: Item)
    requires Enabled(w, TurnEnded(x)) && forall c :: c in w.central ==> LogInv(w, c)
    ensures forall c :: c in w.central ==> LogInv(Next(w, TurnEnded(x)), c)
  {
    var w' := Next(w, TurnEnded(x));
    hide IsEntryOf, LogHas;
    forall c | c in w'.central ensures LogInv(w', c) {
      assert LogInv(w, c);
      forall i | 0 <= i < |w.central[c].log| ensures w.central[c].log[i].eventId != x.queueId {
        EntryIsHad(w.central[c], i);
      }
    }
  }

  lemma EntryIsHad(st: SL.State, i: nat)
    requires i < |st.log|
    ensures LogHas(st, st.log[i].eventId)
  {
  }

  lemma FlushKeeps(w: World, s: Step)
    requires Inv(w) && Enabled(w, s) && s.Flushed?
    ensures Inv(Next(w, s))
  {
    var w' := Next(w, s);
    FlushSendsCopies(w, s);
    SameCentral(w, w');
    hide LogInv, Logged, InQueue, Pending, StampAll, Prefix;
  }

  lemma FlushSendsCopies(w: World, s: Step)
    requires QueueInv(w) && NetInv(w) && Enabled(w, s) && s.Flushed?
    ensures QueueInv(Next(w, s)) && NetInv(Next(w, s))
  {
    var run, w' := w.runs[s.sessionId], Next(w, s);
    PendingIsExact(w.queue, s.sessionId, run);
    var xs := Pending(w.queue, s.sessionId, run);
    hide Pending;
    forall m | m in w'.net ensures m.eventId in w'.made && IsCopy(m, w'.made[m.eventId]) {
      if m !in w.net {
        var i :| 0 <= i < |xs| && m == Stamp(xs[i], run.leaseId);
        assert xs[i] in w.queue;
      }
    }
  }

  /** The log clauses depend only on the logs and on what was made; so do the others on the queue. */
  lemma SameCentral(w: World, w': World)
    requires w'.central == w.central && w'.made == w.made
    ensures forall c :: c in w.central ==> (LogInv(w', c) <==> LogInv(w, c))
    ensures forall q :: Logged(w', q) <==> Logged(w, q)
    ensures w'.queue == w.queue ==> forall q :: InQueue(w', q) <==> InQueue(w, q)
  {
  }

  /** Taking items out of the queue for a reason: each is logged, or now discarded. */
  lemma RemovalKeeps(w: World, w': World)
    requires Inv(w) && w' == w.(runs := w'.runs, queue := w'.queue, discarded := w'.discarded)
    requires w.discarded <= w'.discarded
    requires DistinctIds(w'.queue) && forall x :: x in w'.queue ==> x in w.queue
    requires forall x :: x in w.queue && x !in w'.queue ==> Logged(w, x.queueId) || x.queueId in w'.discarded
    ensures Inv(w')
  {
    SameCentral(w, w');
    hide LogInv, Logged, IsCopy;
    forall q | q in w'.made ensures InQueue(w', q) || q in w'.discarded || Logged(w', q) {
      if InQueue(w, q) {
        var i :| 0 <= i < |w.queue| && w.queue[i].queueId == q;
        assert w.queue[i] in w.queue;
        if w.queue[i] in w'.queue {
          var j :| 0 <= j < |w'.queue| && w'.queue[j] == w.queue[i];
        }
      }
    }
  }

  lemma AckKeeps(w: World, q: string)
    requires Inv(w) && Enabled(w, AckArrived(q))
    ensures Inv(Next(w, AckArrived(q)))
  {
    RemovalIsExact(w.queue, q);
    hide WithoutAll, Logged, LogInv, NetInv;
    RemovalKeeps(w, Next(w, AckArrived(q)));
  }

  lemma DiscardKeeps(w: World, sessionId: string)
    requires Inv(w)
    ensures Inv(Next(w, PausedOrDropped(sessionId)))
  {
    var w' := Next(w, PausedOrDropped(sessionId));
    WithoutSessionIsExact(w.queue, sessionId);
    hide WithoutSession, Logged, LogInv, NetInv;
    forall x | x in w.queue && x !in w'.queue ensures x.queueId in w'.discarded {
      var i :| 0 <= i < |w.queue| && w.queue[i] == x;
    }
    RemovalKeeps(w, w');
  }

  /** A step of central on one session, which may bring in one entry that is no other session's result. */
  lemma CentralKeeps(w: World, c: string, st: SL.State, acks: set<string>)
    requires Inv(w) && c in w.central
    requires var w' := w.(central := w.central[c := st], acks := w.acks + acks);
             w.central[c].log <= st.log && LogInv(w', c) && forall q :: q in acks ==> Logged(w', q)
    ensures Inv(w.(central := w.central[c := st], acks := w.acks + acks))
  {
    var w' := w.(central := w.central[c := st], acks := w.acks + acks);
    forall d | d in w'.central ensures LogInv(w', d) {
      assert d != c ==> LogInv(w, d);
    }
    hide LogInv, IsCopy;
    assert LogsGrow(w, w');
    forall q | Logged(w, q) ensures Logged(w', q) {
      LoggedStays(w, w', q);
    }
    hide Logged;
    assert forall q :: InQueue(w', q) <==> InQueue(w, q);
  }

  lemma ReceivedKeeps(w: World, s: Step)
    requires Inv(w) && Enabled(w, s) && s.CentralReceived?
    ensures Inv(Next(w, s))
  {
    var m, c := s.m, s.m.sessionId;
    if c in w.central {
      var x := w.made[m.eventId];
      assert LogInv(w, c) && IsCopy(m, x);
      var st := w.central[c];
      var (st', acked) := Receive(st, m, s.fate);
      ReceiveKeeps(st, m, x, s.fate);
      var acks := if acked then {m.eventId} else {};
      var w' := w.(central := w.central[c := st'], acks := w.acks + acks);
      LogGains(w, w', c, x);
      hide LogInv, Receive, QueueInv, NetInv;
      CentralKeeps(w, c, st', acks);
    }
  }

  /** A log that gains the entry of one of the session's own results, not logged before. */
  lemma LogGains(w: World, w': World, c: string, x: Item)
    requires c in w.central && LogInv(w, c) && w'.made == w.made && w'.central.Keys == w.central.Keys
    requires x.queueId in w.made && w.made[x.queueId] == x && x.sessionId == c
    requires var log, log' := w.central[c].log, w'.central[c].log;
             || log' == log
             || (!LogHas(w.central[c], x.queueId) && |log'| == |log| + 1 && log'[..|log|] == log
                 && IsEntryOf(log'[|log|], x))
    ensures w.central[c].log <= w'.central[c].log && LogInv(w', c)
  {
    var log, log' := w.central[c].log, w'.central[c].log;
    assert forall i :: 0 <= i < |log| ==> log'[i] == log'[..|log|][i];
  }

  lemma OtherKeeps(w: World, s: Step)
    requires Inv(w) && Enabled(w, s) && s.CentralOther?
    ensures Inv(Next(w, s))
  {
    var c := s.sessionId;
    if c in w.central {
      var step := if s.dies then SL.Died(s.event, s.options) else SL.Delivered(s.event, s.options);
      var st, st' := w.central[c], SL.Take(w.central[c], step);
      SL.StepForms(st, step);
      assert LogInv(w, c);
      var w' := w.(central := w.central[c := st'], acks := w.acks + {});
      assert w'.acks == w.acks;
      hide SL.Take, SL.Deliver, SL.DiesAfterAppend;
      ForeignEntry(w, w', c, s.event);
      hide LogInv, QueueInv, NetInv;
      CentralKeeps(w, c, st', {});
    }
  }

  lemma ForeignEntry(w: World, w': World, c: string, event: SL.Incoming)
    requires c in w.central && LogInv(w, c) && w'.made == w.made && w'.central.Keys == w.central.Keys
    requires event.eventId !in w.made
    requires var log, log' := w.central[c].log, w'.central[c].log;
             || log' == log
             || (SL.IndexOfEvent(log, event.eventId) == |log|
                 && log' == log + [SL.NewEntry(w.central[c].session, event)])
    ensures w.central[c].log <= w'.central[c].log && LogInv(w', c)
  {
  }

  lemma StepKeeps(w: World, s: Step)
    requires Inv(w) && Enabled(w, s)
    ensures Inv(Next(w, s))
  {
    var w' := Next(w, s);
    match s
    case TurnEnded(x) => EndKeeps(w, x);
    case Flushed(_, _) => FlushKeeps(w, s);
    case AckArrived(q) => AckKeeps(w, q);
    case PausedOrDropped(sessionId) => DiscardKeeps(w, sessionId);
    case CentralReceived(_, _) => ReceivedKeeps(w, s);
    case CentralOther(_, _, _, _) => OtherKeeps(w, s);
    case CentralLeased(c, leaseId) =>
      if c in w.central {
        assert LogInv(w, c) && w.acks + {} == w.acks;
        CentralKeeps(w, c, SL.Take(w.central[c], SL.Leased(leaseId)), {});
      }
    case _ =>
      SameCentral(w, w');
  }

  /** The invariant holds throughout any run. */
  lemma {:induction false} ReachableInv(ws: seq<World>, steps: seq<Step>, n: nat)
    requires IsRun(ws, steps) && n <= |steps|
    ensures Inv(ws[n])
  {
    if n > 0 {
      ReachableInv(ws, steps, n - 1);
      assert StepTo(ws[n - 1], steps[n - 1], ws[n]);
      hide Inv, Enabled, Next;
      StepKeeps(ws[n - 1], steps[n - 1]);
    }
  }

  /** Entry `i` of session `c`'s log has the id `q`. */
  predicate EntryAt(w: World, c: string, i: int, q: string) {
    c in w.central && 0 <= i < |w.central[c].log| && w.central[c].log[i].eventId == q
  }

  /** At every moment: no result is lost, only a logged result is acknowledged, and no result is logged twice. */
  lemma ExactlyOnce(ws: seq<World>, steps: seq<Step>, n: nat, w': World)
    requires IsRun(ws, steps) && n <= |steps| && w' == ws[n]
    ensures forall q :: q in w'.made ==> InQueue(w', q) || q in w'.discarded || Logged(w', q)
    ensures forall q :: q in w'.acks ==> Logged(w', q)
    ensures forall q, c, d, i, j :: q in w'.made && EntryAt(w', c, i, q) && EntryAt(w', d, j, q) ==> c == d && i == j
    ensures forall q :: q in w'.made && Logged(w', q) ==>
              exists i :: 0 <= i < |w'.central[w'.made[q].sessionId].log|
                          && IsEntryOf(w'.central[w'.made[q].sessionId].log[i], w'.made[q])
  {
    ReachableInv(ws, steps, n);
    hide IsRun;
    forall c, i | c in w'.central && 0 <= i < |w'.central[c].log| && w'.central[c].log[i].eventId in w'.made
      ensures w'.made[w'.central[c].log[i].eventId].sessionId == c
      ensures IsEntryOf(w'.central[c].log[i], w'.made[w'.central[c].log[i].eventId])
    {
      assert LogInv(w', c);
    }
    forall c | c in w'.central ensures SL.UniqueIds(w'.central[c].log) {
      assert LogInv(w', c);
    }
    hide IsEntryOf, LogInv, QueueInv, NetInv;
  }

  /** A copy of another lease than the session's, of a result not logged yet, changes nothing in central. */
  lemma StaleCopyIsIgnored(w: World, m: Message, fate: Fate)
    requires m.sessionId in w.central && !LogHas(w.central[m.sessionId], m.eventId)
    requires w.central[m.sessionId].session.leaseId != Some(m.leaseId)
    ensures var w' := Next(w, CentralReceived(m, fate)); w'.central == w.central && w'.acks == w.acks
  {
    var st := w.central[m.sessionId];
    FindsEvent(st, m.eventId);
    SL.StaleLeaseIsKeptOut(st, AsEvent(m), ResultOptions());
    assert w.central[m.sessionId := st] == w.central && w.acks + {} == w.acks;
  }

  /** Step `i` logs the result, from a copy that carries the lease the session has at that moment. */
  ghost predicate LogsUnderLease(ws: seq<World>, steps: seq<Step>, i: nat, q: string)
    requires |ws| == |steps| + 1 && i < |steps|
  {
    && !Logged(ws[i], q) && Logged(ws[i + 1], q)
    && steps[i].CentralReceived? && steps[i].m.eventId == q && steps[i].m.sessionId in ws[i].central
    && ws[i].central[steps[i].m.sessionId].session.leaseId == Some(steps[i].m.leaseId)
  }

  lemma OnlyReceivingLogs(w: World, s: Step, q: string)
    requires Inv(w) && Enabled(w, s) && !Logged(w, q) && Logged(Next(w, s), q)
    ensures s.CentralReceived? && s.m.eventId == q && s.m.sessionId in w.central
    ensures w.central[s.m.sessionId].session.leaseId == Some(s.m.leaseId)
  {
    var w' := Next(w, s);
    match s
    case CentralReceived(m, fate) =>
      if m.sessionId in w.central {
        ReceiveLogsItsOwn(w, m, fate, q);
      }
    case CentralOther(c, event, options, dies) =>
      if c in w.central {
        OtherLogsNoResult(w, s, q);
      }
    case TurnEnded(x) => NewIsNotLogged(w, x, q);
    case CentralLeased(_, _) =>
    case _ => SameCentral(w, w');
  }

  lemma NewIsNotLogged(w: World, x: Item, q: string)
    requires Enabled(w, TurnEnded(x)) && !Logged(w, q)
    ensures !Logged(Next(w, TurnEnded(x)), q)
  {
    hide LogHas;
  }

  lemma HadOrNew(st: SL.State, st': SL.State, q: string)
    requires st'.log == st.log || (|st'.log| == |st.log| + 1 && st'.log[..|st.log|] == st.log)
    ensures LogHas(st', q) ==> LogHas(st, q) || (|st.log| < |st'.log| && st'.log[|st.log|].eventId == q)
  {
    assert forall i :: 0 <= i < |st.log| ==> st'.log[i] == st'.log[..|st.log|][i] == st.log[i];
  }

  lemma ReceiveLogsItsOwn(w: World, m: Message, fate: Fate, q: string)
    requires Inv(w) && m in w.net && m.sessionId in w.central && !Logged(w, q)
    requires Logged(Next(w, CentralReceived(m, fate)), q)
    ensures m.eventId == q && w.central[m.sessionId].session.leaseId == Some(m.leaseId)
  {
    var st := w.central[m.sessionId];
    var st' := Receive(st, m, fate).0;
    assert LogInv(w, m.sessionId) && IsCopy(m, w.made[m.eventId]);
    ReceiveKeeps(st, m, w.made[m.eventId], fate);
    hide Receive, LogInv, IsEntryOf, QueueInv;
    HadOrNew(st, st', q);
    if st.session.leaseId != Some(m.leaseId) {
      StaleCopyIsIgnored(w, m, fate);
    }
  }

  lemma OtherLogsNoResult(w: World, s: Step, q: string)
    requires Inv(w) && Enabled(w, s) && s.CentralOther? && s.sessionId in w.central && !Logged(w, q)
    ensures !Logged(Next(w, s), q)
  {
    var step := if s.dies then SL.Died(s.event, s.options) else SL.Delivered(s.event, s.options);
    var st := w.central[s.sessionId];
    SL.StepForms(st, step);
    var st' := SL.Take(st, step);
    hide SL.Take, SL.Deliver, SL.DiesAfterAppend, LogInv, QueueInv, NetInv;
    HadOrNew(st, st', q);
  }

  /** Whatever result central has logged, it logged it from a copy under the lease of that moment; a worker that has
      lost its lease gets nothing new in. */
  lemma {:induction false} LoggedUnderLease(ws: seq<World>, steps: seq<Step>, n: nat, q: string)
    requires IsRun(ws, steps) && n <= |steps| && Logged(ws[n], q)
    ensures exists i: nat :: i < n && LogsUnderLease(ws, steps, i, q)
  {
    if n > 0 {
      assert StepTo(ws[n - 1], steps[n - 1], ws[n]);
      if Logged(ws[n - 1], q) {
        hide Logged, StepTo, Next;
        LoggedUnderLease(ws, steps, n - 1, q);
        var i: nat :| i < n - 1 && LogsUnderLease(ws, steps, i, q);
        assert i < n;
      } else {
        ReachableInv(ws, steps, n - 1);
        hide Inv, Enabled, Next, Logged;
        OnlyReceivingLogs(ws[n - 1], steps[n - 1], q);
        assert LogsUnderLease(ws, steps, n - 1, q);
      }
    }
  }

  /** A queued result always gets through once the network and central cooperate: with the run's lease current and the
      turn accepted, one flush, one delivery and one acknowledgement log it and take it out of the queue. */
  lemma Drains(w: World, x: Item)
    requires Inv(w) && x in w.queue && x.sessionId in w.runs && x.turnSeq in w.runs[x.sessionId].accepted
    requires x.sessionId in w.central && w.central[x.sessionId].session.leaseId == Some(w.runs[x.sessionId].leaseId)
    ensures var flush := Flushed(x.sessionId, |Pending(w.queue, x.sessionId, w.runs[x.sessionId])|);
            var receive := CentralReceived(Stamp(x, w.runs[x.sessionId].leaseId), Acknowledges);
            var w1 := Next(w, flush);
            var w2 := Next(w1, receive);
            && Enabled(w, flush) && Enabled(w1, receive) && Enabled(w2, AckArrived(x.queueId))
            && var w3 := Next(w2, AckArrived(x.queueId));
            Logged(w3, x.queueId) && !InQueue(w3, x.queueId)
  {
    hide *;
    FlushSends(w, x);
    var run := w.runs[x.sessionId];
    var w1 := Next(w, Flushed(x.sessionId, |Pending(w.queue, x.sessionId, run)|));
    var m := Stamp(x, run.leaseId);
    Acknowledged(w1, m);
    AckedIsLogged(Next(w1, CentralReceived(m, Acknowledges)), x.queueId);
  }

  /** The steps by which a session comes to a new worker: central leases it, the worker is assigned it, and accepts the
      turn again. */
  function Reassigned(w: World, x: Item, leaseId: string, digest: string): World {
    var leased := Next(w, CentralLeased(x.sessionId, Some(leaseId)));
    var taken := Next(leased, Assigned(x.sessionId, leaseId));
    Next(taken, InputAccepted(x.sessionId, x.turnSeq, digest))
  }

  /** So a queued result outlives its lease: under whatever lease its session is assigned again, once the turn is
      accepted again, one flush, one delivery and one acknowledgement log it and take it out of the queue. */
  lemma OutlivesItsLease(w: World, x: Item, leaseId: string, digest: string)
    requires Inv(w) && x in w.queue && x.sessionId in w.central
    ensures var again := Reassigned(w, x, leaseId, digest);
            && x.sessionId in again.runs
            && var flush := Flushed(x.sessionId, |Pending(again.queue, x.sessionId, again.runs[x.sessionId])|);
            var receive := CentralReceived(Stamp(x, leaseId), Acknowledges);
            var w1 := Next(again, flush);
            var w2 := Next(w1, receive);
            && Enabled(again, flush) && Enabled(w1, receive) && Enabled(w2, AckArrived(x.queueId))
            && var w3 := Next(w2, AckArrived(x.queueId));
               Logged(w3, x.queueId) && !InQueue(w3, x.queueId)
  {
    var leased := Next(w, CentralLeased(x.sessionId, Some(leaseId)));
    var taken := Next(leased, Assigned(x.sessionId, leaseId));
    var again := Reassigned(w, x, leaseId, digest);
    assert again.queue == w.queue && x.sessionId in again.runs && again.runs[x.sessionId].leaseId == leaseId
           && x.turnSeq in again.runs[x.sessionId].accepted && x.sessionId in again.central
           && again.central[x.sessionId].session.leaseId == Some(leaseId);
    hide Inv, Next, Enabled;
    assert Enabled(w, CentralLeased(x.sessionId, Some(leaseId))) && Enabled(leased, Assigned(x.sessionId, leaseId))
           && Enabled(taken, InputAccepted(x.sessionId, x.turnSeq, digest)) by {
      ReassigningIsEnabled(w, x, leaseId, digest);
    }
    StepKeeps(w, CentralLeased(x.sessionId, Some(leaseId)));
    StepKeeps(leased, Assigned(x.sessionId, leaseId));
    StepKeeps(taken, InputAccepted(x.sessionId, x.turnSeq, digest));
    Drains(again, x);
  }

  lemma ReassigningIsEnabled(w: World, x: Item, leaseId: string, digest: string)
    ensures var leased := Next(w, CentralLeased(x.sessionId, Some(leaseId)));
            && Enabled(w, CentralLeased(x.sessionId, Some(leaseId)))
            && Enabled(leased, Assigned(x.sessionId, leaseId))
            && Enabled(Next(leased, Assigned(x.sessionId, leaseId)), InputAccepted(x.sessionId, x.turnSeq, digest))
  {
  }

  lemma FlushSends(w: World, x: Item)
    requires Inv(w) && x in w.queue && x.sessionId in w.runs && x.turnSeq in w.runs[x.sessionId].accepted
    ensures var run := w.runs[x.sessionId];
            var flush, m := Flushed(x.sessionId, |Pending(w.queue, x.sessionId, run)|), Stamp(x, run.leaseId);
            var w' := Next(w, flush);
            && Enabled(w, flush) && Inv(w') && m in w'.net && w'.central == w.central && m.sessionId == x.sessionId
            && m.leaseId == run.leaseId && m.eventId == x.queueId
  {
    var run := w.runs[x.sessionId];
    FlushKeeps(w, Flushed(x.sessionId, |Pending(w.queue, x.sessionId, run)|));
    hide Inv;
    var xs := Pending(w.queue, x.sessionId, run);
    PendingIsExact(w.queue, x.sessionId, run);
    assert Prefix(StampAll(xs, run.leaseId), |xs|) == StampAll(xs, run.leaseId);
    var i :| 0 <= i < |xs| && xs[i] == x;
    assert StampAll(xs, run.leaseId)[i] == Stamp(x, run.leaseId);
  }

  lemma AckedIsLogged(w: World, q: string)
    requires Inv(w) && q in w.acks
    ensures Enabled(w, AckArrived(q)) && Logged(Next(w, AckArrived(q)), q) && !InQueue(Next(w, AckArrived(q)), q)
  {
    var w' := Next(w, AckArrived(q));
    SameCentral(w, w');
    RemovalIsExact(w.queue, q);
    forall i | 0 <= i < |w'.queue| ensures w'.queue[i].queueId != q {
      assert w'.queue[i] in w'.queue;
    }
  }

  /** A copy under the current lease is acknowledged. */
  lemma Acknowledged(w: World, m: Message)
    requires Inv(w) && m in w.net && m.sessionId in w.central
    requires w.central[m.sessionId].session.leaseId == Some(m.leaseId)
    ensures var receive := CentralReceived(m, Acknowledges);
            var w' := Next(w, receive);
            Enabled(w, receive) && Inv(w') && m.eventId in w'.acks
  {
    ReceivedKeeps(w, CentralReceived(m, Acknowledges));
    assert LogInv(w, m.sessionId);
    hide QueueInv, Inv;
  }
}
