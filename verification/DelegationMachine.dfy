/** All delegations of a tenant, with any number of clients that read, decide and compare-and-set in separate steps. */
module DelegationMachine {
  import opened Basics
  import opened CasStorage
  import opened Delegation

  function Delegations(): Kind<Record> {
    Kind(SameKey, LiveClash)
  }

  // ---------- Invariant of the stored table ----------

  ghost predicate AllShaped(t: Table<Record>) {
    forall id :: id in t ==> Shape(t[id].body)
  }

  /** At most one delegation per (parent, delegate, target) is neither failed nor closed. */
  ghost predicate LiveUnique(t: Table<Record>) {
    forall a, b :: a in t && b in t && a != b && IsLive(t[a].body) && IsLive(t[b].body) ==>
      !SameKey(t[a].body, t[b].body)
  }

  ghost predicate ChildrenDistinct(t: Table<Record>) {
    forall a, b :: a in t && b in t && a != b ==> t[a].body.childSessionId != t[b].body.childSessionId
  }

  predicate HasCall(d: Record, callId: string) {
    exists i :: 0 <= i < |d.calls| && d.calls[i].callId == callId
  }

  predicate UsesEvent(c: Call, eventId: string) {
    c.dispatch.Some? && (c.dispatch.value.inputEventId == eventId || c.dispatch.value.commandEventId == eventId)
  }

  predicate RecordUsesEvent(d: Record, eventId: string) {
    exists i :: 0 <= i < |d.calls| && UsesEvent(d.calls[i], eventId)
  }

  ghost predicate CallIdsDistinct(t: Table<Record>) {
    forall a, b, callId :: a in t && b in t && HasCall(t[a].body, callId) && HasCall(t[b].body, callId) ==> a == b
  }

  /** Within and across delegations, no two calls share a dispatch id. */
  ghost predicate EventIdsDistinct(t: Table<Record>) {
    && (forall a, b, eventId ::
          a in t && b in t && RecordUsesEvent(t[a].body, eventId) && RecordUsesEvent(t[b].body, eventId) ==> a == b)
    && (forall a :: a in t ==> EventsOfCallsDistinct(t[a].body.calls))
  }

  ghost predicate EventsOfCallsDistinct(calls: seq<Call>) {
    forall i, j, eventId ::
      0 <= i < |calls| && 0 <= j < |calls| && UsesEvent(calls[i], eventId) && UsesEvent(calls[j], eventId) ==> i == j
  }

  ghost predicate TableInv(t: Table<Record>) {
    AllShaped(t) && LiveUnique(t) && ChildrenDistinct(t) && CallIdsDistinct(t) && EventIdsDistinct(t)
  }

  // ---------- Atomic steps ----------

  /** UUIDs never repeat an id the store already holds. */
  predicate Minted(t: Table<Record>, op: Op) {
    match op
    case Append(callId, _, _, _) => forall id :: id in t ==> !HasCall(t[id].body, callId)
    case Activate(_, inputEventId, commandEventId) =>
      forall id :: id in t ==>
        !RecordUsesEvent(t[id].body, inputEventId) && !RecordUsesEvent(t[id].body, commandEventId)
    case _ => true
  }

  /** A record exactly as `startCall` first builds it, with fresh ids. */
  predicate IsNewRecord(t: Table<Record>, d: Record) {
    && |d.calls| == 1 && d.maxQueuedCalls >= 1
    && var c := d.calls[0];
    && c == NewCall(c.callId, 1, c.callerTurnSeq, c.callerRequestId, c.input)
    && d == NewDelegation(d.parentSessionId, d.delegateId, d.targetRef, d.childSessionId, d.maxQueuedCalls,
                          d.maxInputBytes, d.maxResultBytes, c)
    && forall id :: id in t ==> t[id].body.childSessionId != d.childSessionId && !HasCall(t[id].body, c.callId)
  }

  ghost predicate IsCreate(t: Table<Record>, t': Table<Record>, id: string, d: Record) {
    id !in t && IsNewRecord(t, d) && Clashes(t, LiveClash, d) == {} && t' == t[id := Versioned(1, d)]
  }

  ghost predicate IsWrite(t: Table<Record>, t': Table<Record>, id: string, op: Op) {
    && id in t && Minted(t, op) && Decide(op, t[id].body).Write?
    && t' == t[id := Versioned(t[id].revision + 1, Decide(op, t[id].body).next)]
  }

  ghost predicate AtomicStep(t: Table<Record>, t': Table<Record>) {
    (exists id, d :: IsCreate(t, t', id, d)) || (exists id, op :: IsWrite(t, t', id, op))
  }

  /** Records only gain revisions, and evolve; an equal revision means an equal record. */
  ghost predicate Grows(t: Table<Record>, t': Table<Record>) {
    forall id :: id in t ==>
      && id in t' && Evolves(t[id].body, t'[id].body)
      && t[id].revision <= t'[id].revision && (t[id].revision == t'[id].revision ==> t'[id] == t[id])
  }

  lemma GrowsReflexive(t: Table<Record>)
    ensures Grows(t, t)
  {
    forall id | id in t ensures Evolves(t[id].body, t[id].body) {
      EvolvesReflexive(t[id].body);
    }
  }

  lemma GrowsTransitive(a: Table<Record>, b: Table<Record>, c: Table<Record>)
    requires Grows(a, b) && Grows(b, c)
    ensures Grows(a, c)
  {
    hide Evolves;
    forall id | id in a ensures Evolves(a[id].body, c[id].body) {
      EvolvesTransitive(a[id].body, b[id].body, c[id].body);
    }
  }

  /** One record written under `id`: each clause needs only be checked against the other records. */
  lemma PutKeepsLive(t: Table<Record>, id: string, v: Versioned<Record>)
    requires LiveUnique(t)
    requires forall a :: a in t && a != id && IsLive(t[a].body) && IsLive(v.body) ==> !SameKey(t[a].body, v.body)
    ensures LiveUnique(t[id := v])
  {
  }

  lemma PutKeepsChildren(t: Table<Record>, id: string, v: Versioned<Record>)
    requires ChildrenDistinct(t)
    requires forall a :: a in t && a != id ==> t[a].body.childSessionId != v.body.childSessionId
    ensures ChildrenDistinct(t[id := v])
  {
  }

  lemma PutKeepsCallIds(t: Table<Record>, id: string, v: Versioned<Record>)
    requires CallIdsDistinct(t)
    requires forall a, callId :: a in t && a != id && HasCall(v.body, callId) ==> !HasCall(t[a].body, callId)
    ensures CallIdsDistinct(t[id := v])
  {
    hide HasCall;
  }

  lemma PutKeepsEventIds(t: Table<Record>, id: string, v: Versioned<Record>)
    requires EventIdsDistinct(t) && EventsOfCallsDistinct(v.body.calls)
    requires forall a, e :: a in t && a != id && RecordUsesEvent(v.body, e) ==> !RecordUsesEvent(t[a].body, e)
    ensures EventIdsDistinct(t[id := v])
  {
    hide RecordUsesEvent, EventsOfCallsDistinct;
  }

  lemma PutGrows(t: Table<Record>, id: string, v: Versioned<Record>)
    requires id in t ==> Evolves(t[id].body, v.body) && v.revision > t[id].revision
    ensures Grows(t, t[id := v])
  {
    forall a | a in t ensures Evolves(t[a].body, t[a].body) {
      EvolvesReflexive(t[a].body);
    }
    hide Evolves;
  }

  lemma CreateKeeps(t: Table<Record>, t': Table<Record>, id: string, d: Record)
    requires TableInv(t) && IsCreate(t, t', id, d)
    ensures TableInv(t') && Grows(t, t')
  {
    var c, v := d.calls[0], Versioned(1, d);
    NewDelegationShape(d, c.callId, c.callerTurnSeq, c.callerRequestId, c.input);
    forall a | a in t && IsLive(t[a].body) ensures !SameKey(t[a].body, d) {
      assert a !in Clashes(t, LiveClash, d);
    }
    assert forall callId :: HasCall(d, callId) ==> callId == c.callId;
    assert forall e :: !RecordUsesEvent(d, e);
    assert EventsOfCallsDistinct(d.calls);
    hide Shape, Evolves, HasCall, RecordUsesEvent, EventsOfCallsDistinct, SameKey;
    PutKeepsLive(t, id, v);
    PutKeepsChildren(t, id, v);
    PutKeepsCallIds(t, id, v);
    PutKeepsEventIds(t, id, v);
    PutGrows(t, id, v);
  }

  /** The ids an operation brings into the store. */
  function NewCalls(op: Op): set<string> {
    if op.Append? then {op.callId} else {}
  }

  function NewEvents(op: Op): set<string> {
    if op.Activate? then {op.inputEventId, op.commandEventId} else {}
  }

  /** Only an append lengthens the queue, and by the one call it mints. */
  lemma WriteLength(d: Record, op: Op)
    requires Shape(d) && FreshFor(op, d) && Decide(op, d).Write?
    ensures var d' := Decide(op, d).next;
            && |d'.calls| == |d.calls| + (if op.Append? then 1 else 0)
            && (op.Append? ==> d'.calls[|d.calls|].callId == op.callId && d'.calls[|d.calls|].dispatch.None?)
  {
    hide StatusShape, CallShape, QueuedCount;
  }

  /** Only an activation binds a dispatch, and only to the first queued call. */
  lemma ActivateBinds(d: Record, op: Op) returns (k: nat)
    requires op.Activate? && Shape(d) && Decide(op, d).Write?
    ensures k < |d.calls| && d.calls[k].dispatch.None?
    ensures Decide(op, d).next.calls == d.calls[k := Activated(d.calls[k], op.childTurnSeq, op.inputEventId,
                                                               op.commandEventId)]
  {
    k :| OpenAt(d, k);
    ActiveIsIndexed(d, k);
    NextQueuedIsFirst(d, k);
    ReplaceAt(d.calls, k, Activated(d.calls[k], op.childTurnSeq, op.inputEventId, op.commandEventId));
  }

  lemma OthersBindNothing(d: Record, op: Op, i: nat)
    requires !op.Activate? && Shape(d) && FreshFor(op, d) && Decide(op, d).Write? && i < |d.calls|
    requires d.calls[i].dispatch.None?
    ensures i < |Decide(op, d).next.calls| && Decide(op, d).next.calls[i].dispatch.None?
  {
    var d' := Decide(op, d).next;
    WriteLength(d, op);
    if op.Complete? || op.Fail? {
      ActiveHasDispatch(d);
    }
    assert forall j :: 0 <= j < |d.calls| && j != i ==> d.calls[j].callId != d.calls[i].callId;
    hide Shape, Evolves, CallEvolves;
    match op
    case Append(_, _, _, _) => assert d'.calls[i] == d.calls[i];
    case Acknowledge(_, _) => assert d'.calls[i] == d.calls[i];
    case Complete(_, _) => assert d'.calls[i] == d.calls[i];
    case _ =>
  }

  lemma ActiveHasDispatch(d: Record)
    requires Shape(d) && ActiveIndex(d) < |d.calls|
    ensures d.calls[ActiveIndex(d)].dispatch.Some?
    ensures forall i :: 0 <= i < |d.calls| && d.calls[i].callId == d.calls[ActiveIndex(d)].callId ==>
              i == ActiveIndex(d)
  {
    var k: nat :| OpenAt(d, k);
    ActiveIsIndexed(d, k);
  }

  lemma ActivateBringsTwoIds(d: Record, op: Op)
    requires op.Activate? && Shape(d) && Decide(op, d).Write? && EventsOfCallsDistinct(d.calls)
    requires !RecordUsesEvent(d, op.inputEventId) && !RecordUsesEvent(d, op.commandEventId)
    ensures var d' := Decide(op, d).next;
            && (forall e :: RecordUsesEvent(d', e) ==>
                  RecordUsesEvent(d, e) || e == op.inputEventId || e == op.commandEventId)
            && EventsOfCallsDistinct(d'.calls)
  {
    var d' := Decide(op, d).next;
    var k := ActivateBinds(d, op);
    hide Decide, Shape;
    forall i, e | 0 <= i < |d'.calls| && UsesEvent(d'.calls[i], e)
      ensures if i == k then e == op.inputEventId || e == op.commandEventId else UsesEvent(d.calls[i], e)
    {
    }
  }

  lemma OthersBringNoIds(d: Record, op: Op)
    requires !op.Activate? && Shape(d) && FreshFor(op, d) && Decide(op, d).Write? && EventsOfCallsDistinct(d.calls)
    ensures var d' := Decide(op, d).next;
            (forall e :: RecordUsesEvent(d', e) ==> RecordUsesEvent(d, e)) && EventsOfCallsDistinct(d'.calls)
  {
    var d' := Decide(op, d).next;
    EveryWriteKeepsShape(d, op);
    WriteLength(d, op);
    forall i, e | 0 <= i < |d'.calls| && UsesEvent(d'.calls[i], e) ensures i < |d.calls| && UsesEvent(d.calls[i], e) {
      hide Decide, Shape, FreshFor;
      if i < |d.calls| {
        assert CallEvolves(d.calls[i], d'.calls[i]);
        if d.calls[i].dispatch.None? {
          OthersBindNothing(d, op, i);
        }
      }
    }
  }

  lemma CallIdsStay(d: Record, op: Op)
    requires Shape(d) && FreshFor(op, d) && Decide(op, d).Write?
    ensures forall callId :: HasCall(Decide(op, d).next, callId) ==> HasCall(d, callId) || callId in NewCalls(op)
  {
    var d' := Decide(op, d).next;
    EveryWriteKeepsShape(d, op);
    WriteLength(d, op);
    hide Decide, Shape, FreshFor;
    forall i | 0 <= i < |d.calls| ensures d'.calls[i].callId == d.calls[i].callId {
      assert CallEvolves(d.calls[i], d'.calls[i]);
    }
  }

  /** What a write leaves of the ids in use: no call id but the one it appends is new, and no dispatch id but those
      it activates with. */
  lemma WriteBringsOnlyMintedIds(d: Record, op: Op)
    requires Shape(d) && FreshFor(op, d) && Decide(op, d).Write? && EventsOfCallsDistinct(d.calls)
    requires forall e :: e in NewEvents(op) ==> !RecordUsesEvent(d, e)
    ensures var d' := Decide(op, d).next;
            && (forall callId :: HasCall(d', callId) ==> HasCall(d, callId) || callId in NewCalls(op))
            && (forall e :: RecordUsesEvent(d', e) ==> RecordUsesEvent(d, e) || e in NewEvents(op))
            && EventsOfCallsDistinct(d'.calls)
  {
    hide Shape, Decide, HasCall, RecordUsesEvent, EventsOfCallsDistinct, FreshFor;
    CallIdsStay(d, op);
    if op.Activate? {
      ActivateBringsTwoIds(d, op);
    } else {
      OthersBringNoIds(d, op);
    }
  }

  /** Rewriting a stored record under the same key and child, never reviving it and using only its own ids and new
      ones, keeps the invariant. */
  lemma RewriteKeeps(t: Table<Record>, id: string, v: Versioned<Record>, newCalls: set<string>, newEvents: set<string>)
    requires TableInv(t) && id in t && v.revision > t[id].revision
    requires Shape(v.body) && Evolves(t[id].body, v.body) && EventsOfCallsDistinct(v.body.calls)
    requires forall a, callId :: a in t && callId in newCalls ==> !HasCall(t[a].body, callId)
    requires forall a, e :: a in t && e in newEvents ==> !RecordUsesEvent(t[a].body, e)
    requires forall callId :: HasCall(v.body, callId) ==> HasCall(t[id].body, callId) || callId in newCalls
    requires forall e :: RecordUsesEvent(v.body, e) ==> RecordUsesEvent(t[id].body, e) || e in newEvents
    ensures TableInv(t[id := v]) && Grows(t, t[id := v])
  {
    PutGrows(t, id, v);
    var d, d' := t[id].body, v.body;
    assert SameKey(d, d') && (IsLive(d') ==> IsLive(d)) && d'.childSessionId == d.childSessionId;
    hide Shape, Evolves, EventsOfCallsDistinct, HasCall, RecordUsesEvent, Grows;
    forall a | a in t && a != id && IsLive(t[a].body) && IsLive(d') ensures !SameKey(t[a].body, d') {
      assert !SameKey(t[a].body, d);
    }
    PutKeepsLive(t, id, v);
    PutKeepsChildren(t, id, v);
    PutKeepsCallIds(t, id, v);
    PutKeepsEventIds(t, id, v);
  }

  lemma NewIdsUnused(t: Table<Record>, op: Op)
    requires Minted(t, op)
    ensures forall a, callId :: a in t && callId in NewCalls(op) ==> !HasCall(t[a].body, callId)
    ensures forall a, e :: a in t && e in NewEvents(op) ==> !RecordUsesEvent(t[a].body, e)
  {
    hide HasCall, RecordUsesEvent;
  }

  lemma WriteFacts(t: Table<Record>, id: string, op: Op)
    requires TableInv(t) && id in t && Minted(t, op) && Decide(op, t[id].body).Write?
    ensures var d, d' := t[id].body, Decide(op, t[id].body).next;
            && FreshFor(op, d) && Shape(d') && Evolves(d, d') && EventsOfCallsDistinct(d'.calls)
            && (forall callId :: HasCall(d', callId) ==> HasCall(d, callId) || callId in NewCalls(op))
            && (forall e :: RecordUsesEvent(d', e) ==> RecordUsesEvent(d, e) || e in NewEvents(op))
  {
    var d := t[id].body;
    assert FreshFor(op, d) by {
      if op.Append? {
        assert !HasCall(d, op.callId);
      }
    }
    EveryWriteKeepsShape(d, op);
    NewIdsUnused(t, op);
    WriteBringsOnlyMintedIds(d, op);
    hide Decide, Shape, Evolves, EventsOfCallsDistinct, FreshFor, HasCall, RecordUsesEvent;
  }

  lemma WriteKeeps(t: Table<Record>, t': Table<Record>, id: string, op: Op)
    requires TableInv(t) && IsWrite(t, t', id, op)
    ensures TableInv(t') && Grows(t, t')
  {
    WriteFacts(t, id, op);
    NewIdsUnused(t, op);
    hide Decide, Shape, Evolves, EventsOfCallsDistinct, FreshFor, HasCall, RecordUsesEvent, TableInv, Grows, Minted,
         NewCalls, NewEvents;
    RewriteKeeps(t, id, t'[id], NewCalls(op), NewEvents(op));
  }

  lemma AtomicStepKeeps(t: Table<Record>, t': Table<Record>)
    requires TableInv(t) && AtomicStep(t, t')
    ensures TableInv(t') && Grows(t, t')
  {
    if id, d :| IsCreate(t, t', id, d) {
      CreateKeeps(t, t', id, d);
    } else {
      var id, op :| IsWrite(t, t', id, op);
      WriteKeeps(t, t', id, op);
    }
  }

  // ---------- Runs of interleaved clients ----------

  /** The writes clients attempt: an operation decided on the record they hold. */
  ghost predicate ClientEvent(s: State<Record>, e: Event<Record>) {
    match e
    case Created(id, record) => record.revision == 1 && IsNewRecord(s.table, record.body)
    case Attempted(client, next) =>
      client in s.held ==>
        && next.revision == s.held[client].seen.revision + 1
        && exists op :: Minted(s.table, op) && Decide(op, s.held[client].seen.body) == Write(next.body)
    case _ => true
  }

  ghost predicate DelegationRun(states: seq<State<Record>>, events: seq<Event<Record>>) {
    && Run(Delegations(), states, events)
    && states[0].table == map[]
    && forall i :: 0 <= i < |events| ==> ClientEvent(states[i], events[i])
  }

  /** Because no update is lost, each step of the interleaving is one atomic operation on the stored record, or
      changes nothing. */
  lemma StepIsAtomic(states: seq<State<Record>>, events: seq<Event<Record>>, i: nat)
    requires DelegationRun(states, events) && i < |events|
    ensures states[i + 1].table == states[i].table || AtomicStep(states[i].table, states[i + 1].table)
  {
    var s, e, s' := states[i], events[i], states[i + 1];
    assert Step(Delegations(), s, e, s') && ClientEvent(s, e);
    match e
    case Created(id, record) =>
      assert IsCreate(s.table, s'.table, id, record.body);
    case Attempted(client, next) =>
      var id := s.held[client].id;
      if Swaps(Delegations(), s, e, id) {
        SwapReplacesWhatWasRead(Delegations(), states, events, id, i);
        var op :| Minted(s.table, op) && Decide(op, s.held[client].seen.body) == Write(next.body);
        assert IsWrite(s.table, s'.table, id, op);
      }
    case _ =>
  }

  lemma InitiallyEmpty(states: seq<State<Record>>, events: seq<Event<Record>>)
    requires DelegationRun(states, events)
    ensures TableInv(states[0].table)
  {
  }

  /** Every reachable state of every interleaving satisfies the invariant. */
  lemma {:induction false} ReachableInvariant(states: seq<State<Record>>, events: seq<Event<Record>>, i: nat)
    requires DelegationRun(states, events) && i <= |events|
    ensures TableInv(states[i].table)
  {
    if i == 0 {
      InitiallyEmpty(states, events);
    } else {
      hide TableInv, AtomicStep;
      ReachableInvariant(states, events, i - 1);
      StepIsAtomic(states, events, i - 1);
      if states[i].table != states[i - 1].table {
        AtomicStepKeeps(states[i - 1].table, states[i].table);
      }
    }
  }

  /** Between any two moments of a run every record only evolves: terminal calls and dispatch ids are frozen, a
      failed delegation stays failed, no record disappears. */
  lemma {:induction false} ReachableEvolution(states: seq<State<Record>>, events: seq<Event<Record>>, i: nat, j: nat)
    requires DelegationRun(states, events) && i <= j <= |events|
    ensures Grows(states[i].table, states[j].table)
    decreases j
  {
    hide Grows, TableInv, AtomicStep;
    if i == j {
      GrowsReflexive(states[i].table);
    } else {
      ReachableEvolution(states, events, i, j - 1);
      ReachableInvariant(states, events, j - 1);
      StepIsAtomic(states, events, j - 1);
      if states[j].table != states[j - 1].table {
        AtomicStepKeeps(states[j - 1].table, states[j].table);
        GrowsTransitive(states[i].table, states[j - 1].table, states[j].table);
      }
    }
  }
}
