/** Starting and dispatching delegated calls with crashes. A pass is a sequence of durable writes that may stop after
    any of them; the next pass starts over from what is stored. Passes do not overlap. */
module Redrive {
  import opened Basics
  import opened CasStorage
  import opened Delegation
  import opened DelegationMachine
  import opened DelegationManager

  // ---------- What is stored ----------

  /** One `input.accepted` event of a child session, with the call it carries. */
  datatype InputEvent = InputEvent(eventId: string, callId: string)

  datatype ChildStatus = ChildCreated | ChildRunning | ChildNotReady

  datatype Child = Child(status: ChildStatus, nextTurnSeq: nat, inputs: seq<InputEvent>)

  // ---------- Caller keys ----------

  /** Call `i` of `d` was started by this request of this parent turn. */
  predicate KeyAt(d: Record, i: nat, parent: string, turnSeq: nat, requestId: string) {
    && d.parentSessionId == parent && i < |d.calls| && d.calls[i].callerTurnSeq == turnSeq
    && d.calls[i].callerRequestId == requestId
  }

  predicate HasKey(d: Record, parent: string, turnSeq: nat, requestId: string) {
    exists i: nat :: i < |d.calls| && KeyAt(d, i, parent, turnSeq, requestId)
  }

  ghost predicate KeyFree(t: Table<Record>, parent: string, turnSeq: nat, requestId: string) {
    forall a :: a in t ==> !HasKey(t[a].body, parent, turnSeq, requestId)
  }

  /** At most one call per caller key, over all delegations. */
  ghost predicate KeysUnique(t: Table<Record>) {
    forall a, b, i: nat, j: nat, parent, turnSeq, requestId ::
      a in t && KeyAt(t[a].body, i, parent, turnSeq, requestId) ==>
        b in t && KeyAt(t[b].body, j, parent, turnSeq, requestId) ==> a == b && i == j
  }

  lemma KeysOfPut(t: Table<Record>, id: string, v: Versioned<Record>)
    requires KeysUnique(t)
    requires forall a, i: nat, j: nat, p, n, r :: a in t && a != id && KeyAt(t[a].body, i, p, n, r) ==>
               !KeyAt(v.body, j, p, n, r)
    requires forall i: nat, j: nat, p, n, r :: KeyAt(v.body, i, p, n, r) && KeyAt(v.body, j, p, n, r) ==> i == j
    ensures KeysUnique(t[id := v])
  {
    hide KeyAt;
  }

  predicate BringsKey(op: Op, parent: string, turnSeq: nat, requestId: string, d: Record) {
    op.Append? && parent == d.parentSessionId && turnSeq == op.turnSeq && requestId == op.requestId
  }

  /** A write leaves every call's key alone; an append puts its own key at the end. */
  lemma KeysOfWrite(d: Record, op: Op)
    requires Shape(d) && FreshFor(op, d) && Decide(op, d).Write?
    ensures var d' := Decide(op, d).next;
            forall i: nat, p, n, r :: KeyAt(d', i, p, n, r) <==>
              KeyAt(d, i, p, n, r) || (i == |d.calls| && BringsKey(op, p, n, r, d))
  {
    var d' := Decide(op, d).next;
    EveryWriteKeepsShape(d, op);
    WriteLength(d, op);
    if op.Append? {
      AppendedKey(d, op);
    }
    hide Decide, Shape, FreshFor;
    forall i | 0 <= i < |d.calls|
      ensures d'.calls[i].callerTurnSeq == d.calls[i].callerTurnSeq
      ensures d'.calls[i].callerRequestId == d.calls[i].callerRequestId
    {
      assert CallEvolves(d.calls[i], d'.calls[i]);
    }
  }

  lemma AppendedKey(d: Record, op: Op)
    requires Decide(op, d).Write? && op.Append?
    ensures var d' := Decide(op, d).next;
            && |d'.calls| == |d.calls| + 1 && d'.calls[|d.calls|].callerTurnSeq == op.turnSeq
            && d'.calls[|d.calls|].callerRequestId == op.requestId
  {
  }

  /** The caller key an append brings must not be in use. */
  ghost predicate KeyAllowed(t: Table<Record>, id: string, op: Op)
    requires id in t
  {
    op.Append? ==> KeyFree(t, t[id].body.parentSessionId, op.turnSeq, op.requestId)
  }

  lemma WriteKeepsKeys(t: Table<Record>, t': Table<Record>, id: string, op: Op)
    requires TableInv(t) && KeysUnique(t) && IsWrite(t, t', id, op) && KeyAllowed(t, id, op)
    ensures KeysUnique(t')
  {
    hide Decide, Shape, TableInv, Minted, HasCall, RecordUsesEvent, EventsOfCallsDistinct, FreshFor, NewCalls,
         NewEvents, Evolves;
    WriteFacts(t, id, op);
    KeysOfWrite(t[id].body, op) by {
      TableShape(t, id);
    }
    var d, d' := t[id].body, t'[id].body;
    if op.Append? {
      FreeMeansNone(t, d.parentSessionId, op.turnSeq, op.requestId);
    }
    hide KeyAt, KeyFree;
    KeysOfPut(t, id, t'[id]);
  }

  lemma TableShape(t: Table<Record>, id: string)
    requires TableInv(t) && id in t
    ensures Shape(t[id].body)
  {
    hide Shape;
  }

  lemma FreeMeansNone(t: Table<Record>, parent: string, turnSeq: nat, requestId: string)
    requires KeyFree(t, parent, turnSeq, requestId)
    ensures forall a, i: nat :: a in t ==> !KeyAt(t[a].body, i, parent, turnSeq, requestId)
  {
    forall a, i: nat | a in t ensures !KeyAt(t[a].body, i, parent, turnSeq, requestId) {
      assert !HasKey(t[a].body, parent, turnSeq, requestId);
    }
  }

  lemma CreateKeepsKeys(t: Table<Record>, t': Table<Record>, id: string, d: Record)
    requires KeysUnique(t) && IsCreate(t, t', id, d)
    requires KeyFree(t, d.parentSessionId, d.calls[0].callerTurnSeq, d.calls[0].callerRequestId)
    ensures KeysUnique(t')
  {
    hide Clashes, HasCall, TableInv;
    FreeMeansNone(t, d.parentSessionId, d.calls[0].callerTurnSeq, d.calls[0].callerRequestId);
    hide KeyFree;
    KeysOfPut(t, id, t'[id]);
  }

  // ---------- Child event logs ----------

  predicate Binds(c: Call, e: InputEvent) {
    c.callId == e.callId && c.dispatch.Some? && c.dispatch.value.inputEventId == e.eventId
  }

  /** `e` is the input event of one of the calls dispatched to this child. */
  ghost predicate BoundIn(t: Table<Record>, childId: string, e: InputEvent) {
    exists a, i: nat :: a in t && t[a].body.childSessionId == childId && i < |t[a].body.calls|
                        && Binds(t[a].body.calls[i], e)
  }

  ghost predicate LogsBound(t: Table<Record>, children: map<string, Child>) {
    forall c :: c in children ==>
      && (forall m :: 0 <= m < |children[c].inputs| ==> BoundIn(t, c, children[c].inputs[m]))
      && forall m, n :: 0 <= m < n < |children[c].inputs| ==>
        children[c].inputs[m].eventId != children[c].inputs[n].eventId
  }

  lemma BoundStays(t: Table<Record>, t': Table<Record>, childId: string, e: InputEvent)
    requires BoundIn(t, childId, e) && Grows(t, t')
    ensures BoundIn(t', childId, e)
  {
    var a, i: nat :| a in t && t[a].body.childSessionId == childId && i < |t[a].body.calls|
                     && Binds(t[a].body.calls[i], e);
    assert Evolves(t[a].body, t'[a].body);
    assert CallEvolves(t[a].body.calls[i], t'[a].body.calls[i]);
    assert Binds(t'[a].body.calls[i], e);
  }

  lemma LogsStayBound(t: Table<Record>, t': Table<Record>, children: map<string, Child>)
    requires LogsBound(t, children) && Grows(t, t')
    ensures LogsBound(t', children)
  {
    hide Grows, BoundIn;
    forall c, m | c in children && 0 <= m < |children[c].inputs| ensures BoundIn(t', c, children[c].inputs[m]) {
      BoundStays(t, t', c, children[c].inputs[m]);
    }
  }

  /** A child's log holds at most one input event per call. */
  lemma OneInputPerCall(t: Table<Record>, children: map<string, Child>, c: string, m: nat, n: nat)
    requires TableInv(t) && LogsBound(t, children) && c in children && m < |children[c].inputs|
    requires n < |children[c].inputs|
    requires children[c].inputs[m].callId == children[c].inputs[n].callId
    ensures m == n
  {
    hide Shape, EventIdsDistinct, LiveUnique;
    var x, y := children[c].inputs[m], children[c].inputs[n];
    var a, i: nat :| a in t && t[a].body.childSessionId == c && i < |t[a].body.calls| && Binds(t[a].body.calls[i], x);
    var b, j: nat :| b in t && t[b].body.childSessionId == c && j < |t[b].body.calls| && Binds(t[b].body.calls[j], y);
    assert a == b;
    SameCallSameIndex(t, a, i, j);
  }

  lemma SameCallSameIndex(t: Table<Record>, a: string, i: nat, j: nat)
    requires TableInv(t) && a in t && i < |t[a].body.calls| && j < |t[a].body.calls|
    requires t[a].body.calls[i].callId == t[a].body.calls[j].callId
    ensures i == j
  {
    TableShape(t, a);
    hide TableInv, StatusShape, CallShape, QueuedCount;
  }

  /** No child session is lost, and the log of each only grows. */
  ghost predicate LogsGrow(cs: map<string, Child>, cs': map<string, Child>) {
    forall c :: c in cs ==> c in cs' && cs[c].inputs <= cs'[c].inputs
  }

  lemma LogsGrowReflexive(cs: map<string, Child>)
    ensures LogsGrow(cs, cs)
  {
  }

  lemma LogsGrowTransitive(a: map<string, Child>, b: map<string, Child>, c: map<string, Child>)
    requires LogsGrow(a, b) && LogsGrow(b, c)
    ensures LogsGrow(a, c)
  {
  }

  /** Child sessions stay as they are, except that new ones appear with an empty log. */
  ghost predicate ChildrenStay(cs: map<string, Child>, cs': map<string, Child>) {
    && (forall c :: c in cs ==> c in cs' && cs'[c] == cs[c])
    && forall c :: c in cs' && c !in cs ==> cs'[c] == Child(ChildCreated, 1, [])
  }

  lemma ChildrenStayReflexive(cs: map<string, Child>)
    ensures ChildrenStay(cs, cs)
  {
  }

  lemma StayingLogsGrow(cs: map<string, Child>, cs': map<string, Child>)
    requires ChildrenStay(cs, cs')
    ensures LogsGrow(cs, cs')
  {
  }

  /** The child's log holds an event of this id. */
  predicate EventLogged(children: map<string, Child>, c: string, eventId: string) {
    c in children && exists m :: 0 <= m < |children[c].inputs| && children[c].inputs[m].eventId == eventId
  }

  // ---------- The invariant ----------

  /** No stored id is one this process has yet to mint. */
  ghost predicate IdsAhead(t: Table<Record>, minted: nat) {
    && OwnIdsUnused(t, minted)
    && forall k: nat, a :: k >= minted && a in t ==> a != OwnId(k) && t[a].body.childSessionId != OwnId(k)
  }

  ghost predicate WorldInv(t: Table<Record>, minted: nat, children: map<string, Child>) {
    TableInv(t) && IdsAhead(t, minted) && KeysUnique(t) && LogsBound(t, children)
  }

  lemma WriteKeepsWorld(t: Table<Record>, t': Table<Record>, id: string, op: Op, minted: nat, used: nat,
                        children: map<string, Child>)
    requires WorldInv(t, minted, children) && OwnIdsOf(op, minted, used) && KeyAllowedIn(t, id, op)
    requires IsWrite(t, t', id, op)
    ensures WorldInv(t', minted + used, children) && Grows(t, t')
  {
    hide TableInv, KeysUnique, LogsBound, Decide, Minted, OwnIdsUnused, OwnIdsOf, KeyFree, OwnId, Shape, HasCall,
         RecordUsesEvent,
         EventsOfCallsDistinct, FreshFor, NewCalls, NewEvents;
    WriteKeeps(t, t', id, op);
    WriteKeepsKeys(t, t', id, op);
    LogsStayBound(t, t', children);
    LaterIdsStayUnused(t, t', id, op, minted, used);
    WriteFacts(t, id, op);
    assert t'[id].body.childSessionId == t[id].body.childSessionId;
  }

  ghost predicate KeyAllowedIn(t: Table<Record>, id: string, op: Op) {
    id in t && KeyAllowed(t, id, op)
  }

  lemma CreateKeepsWorld(t: Table<Record>, t': Table<Record>, d: Record, minted: nat, children: map<string, Child>)
    requires WorldInv(t, minted, children) && IsCreate(t, t', OwnId(minted), d)
    requires d.childSessionId == OwnId(minted + 1) && d.calls[0].callId == OwnId(minted + 2)
    requires KeyFree(t, d.parentSessionId, d.calls[0].callerTurnSeq, d.calls[0].callerRequestId)
    ensures WorldInv(t', minted + 3, children) && Grows(t, t')
  {
    CreateKeepsIds(t, t', d, minted);
    hide TableInv, KeysUnique, LogsBound, OwnIdsUnused, IdsAhead, KeyFree, OwnId, Clashes, Grows, HasCall;
    CreateKeeps(t, t', OwnId(minted), d);
    CreateKeepsKeys(t, t', OwnId(minted), d);
    LogsStayBound(t, t', children);
  }

  lemma CreateKeepsIds(t: Table<Record>, t': Table<Record>, d: Record, minted: nat)
    requires IdsAhead(t, minted) && IsCreate(t, t', OwnId(minted), d)
    requires d.childSessionId == OwnId(minted + 1) && d.calls[0].callId == OwnId(minted + 2)
    ensures IdsAhead(t', minted + 3)
  {
    hide Clashes, OwnId;
    forall k: nat | k >= minted + 3 ensures Unused(t', OwnId(k)) && OwnId(k) !in t' && d.childSessionId != OwnId(k) {
      OwnIdsDiffer(k, minted);
      OwnIdsDiffer(k, minted + 1);
      OwnIdsDiffer(k, minted + 2);
      assert Unused(t, OwnId(k));
      assert !HasCall(d, OwnId(k)) && !RecordUsesEvent(d, OwnId(k));
    }
  }

  lemma LogGrows(t: Table<Record>, children: map<string, Child>, c: string, e: InputEvent)
    requires LogsBound(t, children) && c in children && BoundIn(t, c, e)
    requires forall m :: 0 <= m < |children[c].inputs| ==> children[c].inputs[m].eventId != e.eventId
    ensures LogsBound(t, children[c := children[c].(inputs := children[c].inputs + [e])])
  {
    hide BoundIn;
  }

  /** The same calls in the same delegations. */
  ghost predicate SameCalls(t: Table<Record>, t': Table<Record>) {
    && t'.Keys == t.Keys
    && forall a :: a in t ==>
      t'[a].body.calls == t[a].body.calls && t'[a].body.parentSessionId == t[a].body.parentSessionId
  }

  // ---------- The passes ----------

  datatype StartInput = StartInput(
    parentSessionId: string,
    delegateId: string,
    targetRef: Option<string>,
    turnSeq: nat,
    requestId: string,
    input: string,
    maxQueuedCalls: nat,
    maxInputBytes: nat,
    maxResultBytes: nat)

  datatype StartResult = StartCrashed | StartThrew | Started(id: string, index: nat)

  datatype OpenResult = OpenCrashed | OpenThrew | Opened

  datatype DispatchResult = DispatchCrashed | DispatchThrew | Idle | Handed(call: Call)

  /** The new delegation `startCall` builds, with ids number `minted` to `minted + 2`. */
  function FirstRecord(s: StartInput, minted: nat): Record {
    NewDelegation(s.parentSessionId, s.delegateId, if s.targetRef == Some("") then None else s.targetRef,
                  OwnId(minted + 1),
                  s.maxQueuedCalls, s.maxInputBytes, s.maxResultBytes,
                  NewCall(OwnId(minted + 2), 1, s.turnSeq, s.requestId, s.input))
  }

  /** A call under this caller key that was made with another input, or to another delegate. */
  ghost predicate KeyMisused(t: Table<Record>, s: StartInput) {
    exists a, i: nat ::
      a in t && KeyAt(t[a].body, i, s.parentSessionId, s.turnSeq, s.requestId)
      && (t[a].body.delegateId != s.delegateId || t[a].body.calls[i].input != s.input)
  }

  /** The call a start answers with: under the caller key, with the caller's input, to the caller's delegate. */
  predicate Answers(d: Record, i: nat, s: StartInput) {
    && KeyAt(d, i, s.parentSessionId, s.turnSeq, s.requestId) && d.calls[i].input == s.input
    && d.delegateId == s.delegateId
  }

  /** The delegation is for the caller's target; an absent target and an empty one are the same. */
  predicate Reaches(d: Record, s: StartInput) {
    d.targetRef.GetOr("") == s.targetRef.GetOr("")
  }

  /** The delegation has the caller's limits, and no target if that is empty. */
  predicate HasLimits(d: Record, s: StartInput) {
    && d.targetRef != Some("") && d.maxQueuedCalls == s.maxQueuedCalls && d.maxInputBytes == s.maxInputBytes
    && d.maxResultBytes == s.maxResultBytes
  }

  predicate IsCallAt(t: Table<Record>, a: string, i: nat) {
    a in t && i < |t[a].body.calls|
  }

  /** No call is new. */
  ghost predicate NoneBrought(t: Table<Record>, t': Table<Record>) {
    forall a, i: nat :: IsCallAt(t', a, i) ==> IsCallAt(t, a, i)
  }

  /** Every new call is the caller's, in a delegation to the caller's target; a new delegation has the caller's
      limits. */
  ghost predicate StartBrings(t: Table<Record>, t': Table<Record>, s: StartInput) {
    forall a, i: nat :: IsCallAt(t', a, i) ==>
      || IsCallAt(t, a, i)
      || (Answers(t'[a].body, i, s) && Reaches(t'[a].body, s) && (a !in t ==> HasLimits(t'[a].body, s)))
  }

  /** A call under the caller key, in a delegation to the caller's target. */
  ghost predicate KeyReaches(t: Table<Record>, s: StartInput) {
    exists a, i: nat :: a in t && KeyAt(t[a].body, i, s.parentSessionId, s.turnSeq, s.requestId)
                        && Reaches(t[a].body, s)
  }

  lemma BringsReflexive(t: Table<Record>)
    ensures NoneBrought(t, t)
  {
  }

  lemma SameCallsBringNone(t: Table<Record>, t': Table<Record>)
    requires SameCalls(t, t')
    ensures NoneBrought(t, t')
  {
  }

  lemma NoneIsBrought(t: Table<Record>, t': Table<Record>, s: StartInput)
    requires NoneBrought(t, t')
    ensures StartBrings(t, t', s)
  {
    hide Answers, Reaches, HasLimits;
  }

  /** What a write brings and what the opening after it keeps. */
  lemma BroughtStays(t: Table<Record>, t': Table<Record>, t'': Table<Record>, s: StartInput)
    requires StartBrings(t, t', s) && SameCalls(t', t'') && Grows(t', t'')
    ensures StartBrings(t, t'', s)
  {
    forall a, i: nat | IsCallAt(t'', a, i) && !IsCallAt(t, a, i)
      ensures Answers(t''[a].body, i, s) && Reaches(t''[a].body, s) && (a !in t ==> HasLimits(t''[a].body, s))
    {
      assert IsCallAt(t', a, i);
      assert Answers(t'[a].body, i, s);
      assert Evolves(t'[a].body, t''[a].body);
    }
  }

  /** A write brings a call only if it appends one, and then at the end of its own delegation. */
  lemma WriteBrings(t: Table<Record>, t': Table<Record>, id: string, op: Op)
    requires TableInv(t) && IsWrite(t, t', id, op)
    ensures !op.Append? ==> NoneBrought(t, t')
    ensures forall a, i: nat :: IsCallAt(t', a, i) ==>
              IsCallAt(t, a, i) || (op.Append? && a == id && i == |t[a].body.calls|)
  {
    WriteFacts(t, id, op);
    TableShape(t, id);
    WriteLength(t[id].body, op);
    hide Decide, Shape, TableInv, Minted, HasCall, RecordUsesEvent, EventsOfCallsDistinct, FreshFor, Evolves;
  }

  lemma AppendBrings(t: Table<Record>, t': Table<Record>, id: string, op: Op, s: StartInput)
    requires TableInv(t) && IsWrite(t, t', id, op) && IsRelation(t, id, s)
    requires op.Append? && op.turnSeq == s.turnSeq && op.requestId == s.requestId && op.input == s.input
    ensures StartBrings(t, t', s) && Reaches(t'[id].body, s)
    ensures Answers(t'[id].body, |t[id].body.calls|, s)
  {
    WriteBrings(t, t', id, op);
    WriteFacts(t, id, op);
    hide Shape, TableInv, Minted, HasCall, RecordUsesEvent, EventsOfCallsDistinct, FreshFor;
    assert Answers(t'[id].body, |t[id].body.calls|, s) && Reaches(t'[id].body, s);
  }

  lemma CreateBrings(t: Table<Record>, t': Table<Record>, s: StartInput, minted: nat)
    requires t' == t[OwnId(minted) := Versioned(1, FirstRecord(s, minted))] && OwnId(minted) !in t
    ensures StartBrings(t, t', s) && Answers(t'[OwnId(minted)].body, 0, s) && Reaches(t'[OwnId(minted)].body, s)
  {
    hide OwnId;
  }

  /** A live delegation of the caller's relation. */
  predicate IsRelation(t: Table<Record>, a: string, s: StartInput) {
    a in t && LiveUnder(t[a].body, s.parentSessionId, s.delegateId, s.targetRef)
  }

  /** Why a start is refused: the parent may not call; the caller key was used for something else; the key is new and
      the relation's live delegation has no room, or there is none and the target or the input will not do. */
  ghost predicate StartRefused(t: Table<Record>, s: StartInput, mayCall: bool, paired: bool) {
    || !mayCall
    || KeyMisused(t, s)
    || (KeyFree(t, s.parentSessionId, s.turnSeq, s.requestId)
        && if exists a :: IsRelation(t, a, s) then exists a :: IsRelation(t, a, s) && !Takes(t[a].body, s.input)
           else !paired || !Admits(s.maxInputBytes, s.input))
  }

  /** The three ways a start that may be made can go. */
  lemma StartRefusedForms(t: Table<Record>, s: StartInput, mayCall: bool, paired: bool)
    ensures !mayCall ==> StartRefused(t, s, mayCall, paired)
    ensures mayCall && !KeyFree(t, s.parentSessionId, s.turnSeq, s.requestId) ==>
              (StartRefused(t, s, mayCall, paired) <==> KeyMisused(t, s))
    ensures mayCall && KeyFree(t, s.parentSessionId, s.turnSeq, s.requestId) ==>
              (StartRefused(t, s, mayCall, paired) <==>
                 if exists a :: IsRelation(t, a, s) then exists a :: IsRelation(t, a, s) && !Takes(t[a].body, s.input)
                 else !paired || !Admits(s.maxInputBytes, s.input))
  {
    FreeNotMisused(t, s);
    hide KeyFree, KeyMisused, IsRelation, Takes, Admits;
  }

  /** A relation has one live delegation at most, so what it says decides. */
  lemma LiveIsOne(t: Table<Record>, minted: nat, children: map<string, Child>, s: StartInput, id: string)
    requires WorldInv(t, minted, children) && IsRelation(t, id, s)
    ensures (exists a :: IsRelation(t, a, s) && !Takes(t[a].body, s.input)) <==> !Takes(t[id].body, s.input)
  {
    hide Takes, Shape, EventIdsDistinct, IdsAhead, KeysUnique, LogsBound;
    forall a | IsRelation(t, a, s) ensures a == id {
      assert SameKey(t[a].body, t[id].body);
    }
  }

  lemma AnswerStays(d: Record, d': Record, i: nat, s: StartInput)
    requires Answers(d, i, s) && Evolves(d, d')
    ensures Answers(d', i, s)
  {
    assert CallEvolves(d.calls[i], d'.calls[i]);
  }

  lemma ReachesStays(t: Table<Record>, t': Table<Record>, id: string, s: StartInput)
    requires id in t && Grows(t, t')
    ensures id in t' && (Reaches(t'[id].body, s) <==> Reaches(t[id].body, s))
  {
  }

  /** A key names one call, so whether it reaches the target is whether that call's delegation does. */
  lemma KeyReachesIfItDoes(t: Table<Record>, s: StartInput, id: string, i: nat)
    requires KeysUnique(t) && id in t && KeyAt(t[id].body, i, s.parentSessionId, s.turnSeq, s.requestId)
    ensures KeyReaches(t, s) <==> Reaches(t[id].body, s)
  {
  }

  lemma AnswerStaysStored(t: Table<Record>, t': Table<Record>, id: string, i: nat, s: StartInput)
    requires id in t && Answers(t[id].body, i, s) && Grows(t, t')
    ensures id in t' && Answers(t'[id].body, i, s)
  {
    hide Evolves, Answers;
    AnswerStays(t[id].body, t'[id].body, i, s);
  }

  /** With unique keys, a key misused by one call is not answered by another. */
  lemma MisusedHasNoAnswer(t: Table<Record>, s: StartInput, id: string, i: nat)
    requires KeysUnique(t) && id in t && Answers(t[id].body, i, s)
    ensures !KeyMisused(t, s)
  {
  }

  lemma FirstRecordIsNew(t: Table<Record>, s: StartInput, minted: nat)
    requires IdsAhead(t, minted) && s.maxQueuedCalls >= 1
    requires forall a :: !IsRelation(t, a, s)
    ensures IsCreate(t, t[OwnId(minted) := Versioned(1, FirstRecord(s, minted))], OwnId(minted), FirstRecord(s, minted))
  {
    forall a | a in t ensures !LiveClash(t[a].body, FirstRecord(s, minted)) {
      assert !IsRelation(t, a, s);
    }
    hide OwnId, LiveClash, IsRelation;
    forall a | a in t ensures !HasCall(t[a].body, OwnId(minted + 2)) {
      assert Unused(t, OwnId(minted + 2));
    }
    hide HasCall;
    assert Clashes(t, LiveClash, FirstRecord(s, minted)) == {};
  }

  /** The durable state behind the managers. `fuel` is how many more durable writes happen before the process dies. */
  class Central {
    var delegations: Table<Record>
    var children: map<string, Child>
    var minted: nat
    var fuel: nat

    ghost predicate Valid()
      reads this
    {
      WorldInv(delegations, minted, children)
    }

    constructor ()
      ensures Valid() && delegations == map[] && children == map[] && fuel == 0
    {
      delegations, children, minted, fuel := map[], map[], 0, 0;
    }

    /** One durable write of a delegation. */
    method Write(id: string, op: Op, used: nat) returns (ok: bool)
      requires Valid() && OwnIdsOf(op, minted, used) && KeyAllowedIn(delegations, id, op)
      requires Minted(delegations, op) && Decide(op, delegations[id].body).Write?
      modifies this`delegations, this`minted, this`fuel
      ensures Valid() && Grows(old(delegations), delegations)
      ensures ok ==> IsWrite(old(delegations), delegations, id, op)
      ensures !ok || !op.Append? ==> NoneBrought(old(delegations), delegations)
      ensures !ok ==> delegations == old(delegations) && minted == old(minted)
      ensures if ok then old(fuel) == fuel + 1 else old(fuel) == fuel == 0
    {
      hide Decide, Minted, KeyAllowed, OwnIdsOf, TableInv, IdsAhead, KeysUnique, LogsBound, Grows;
      GrowsReflexive(delegations);
      BringsReflexive(delegations);
      if fuel == 0 {
        return false;
      }
      ghost var t := delegations;
      var d := delegations[id];
      delegations := delegations[id := Versioned(d.revision + 1, Decide(op, d.body).next)];
      WriteKeepsWorld(t, delegations, id, op, minted, used, children);
      WriteBrings(t, delegations, id, op);
      minted := minted + used;
      fuel := fuel - 1;
      return true;
    }

    /** `ensureChildAndOpen`: create the child session if it is missing, then open the delegation. */
    method EnsureChildAndOpen(id: string) returns (r: OpenResult)
      requires Valid() && id in delegations
      modifies this
      ensures Valid() && Grows(old(delegations), delegations) && SameCalls(old(delegations), delegations)
      ensures ChildrenStay(old(children), children)
      ensures delegations[id].body.status == (if r.Opened? then Open else old(delegations)[id].body.status)
      ensures r.OpenThrew? ==> old(delegations)[id].body.status !in {CreatingChild, Open}
      ensures fuel <= old(fuel) <= fuel + 2 && (r.OpenCrashed? ==> fuel == 0 && old(fuel) < 2)
      ensures old(delegations)[id].body.status == CreatingChild && r.Opened? ==>
                delegations[id].body.childSessionId in children
    {
      hide TableInv, IdsAhead, KeysUnique, Grows, Minted, OwnIdsUnused, OwnIdsOf, KeyFree;
      GrowsReflexive(delegations);
      var child := delegations[id].body.childSessionId;
      if child !in children {
        if fuel == 0 {
          return OpenCrashed;
        }
        children := children[child := Child(ChildCreated, 1, [])];
        fuel := fuel - 1;
      }
      if delegations[id].body.status == CreatingChild {
        NoIds(OpenChild, delegations, minted);
        var ok := Write(id, OpenChild, 0);
        return if ok then Opened else OpenCrashed;
      }
      return if delegations[id].body.status == Open then Opened else OpenThrew;
    }

    /** A stored call under the caller key. */
    method FindCallByCallerKey(parent: string, turnSeq: nat, requestId: string) returns (found: Option<(string, nat)>)
      ensures found.Some? ==> found.value.0 in delegations
                              && KeyAt(delegations[found.value.0].body, found.value.1, parent, turnSeq, requestId)
      ensures found.None? <==> KeyFree(delegations, parent, turnSeq, requestId)
    {
      var hits := set a | a in delegations && HasKey(delegations[a].body, parent, turnSeq, requestId);
      if hits == {} {
        assert forall a :: a in delegations && HasKey(delegations[a].body, parent, turnSeq, requestId) ==> a in hits;
        return None;
      }
      var id :| id in hits;
      var i := FirstIndex(delegations[id].body.calls,
                          (c: Call) => c.callerTurnSeq == turnSeq && c.callerRequestId == requestId);
      return Some((id, i));
    }

    /** The live delegation of the caller's relation, if any; there is no other. */
    method ReadDelegationByKey(s: StartInput) returns (found: Option<string>)
      requires Valid()
      ensures found.Some? ==> IsRelation(delegations, found.value, s)
      ensures found.Some? ==>
                ((exists a :: IsRelation(delegations, a, s) && !Takes(delegations[a].body, s.input))
                 <==> !Takes(delegations[found.value].body, s.input))
      ensures found.None? ==> forall a :: !IsRelation(delegations, a, s)
    {
      hide WorldInv, Takes, LiveUnder;
      var hits := set a | a in delegations && IsRelation(delegations, a, s);
      if hits == {} {
        assert forall a :: a in delegations && IsRelation(delegations, a, s) ==> a in hits;
        return None;
      }
      var id :| id in hits;
      LiveIsOne(delegations, minted, children, s, id);
      return Some(id);
    }

    /** `startCall`. Whether the parent may call this delegate and whether the target device is paired are decided
        elsewhere. Starting a call a second time changes no call; starting another one under the same caller key
        throws; a throw changes nothing. */
    method StartCall(s: StartInput, mayCall: bool, paired: bool) returns (r: StartResult)
      requires Valid() && s.maxQueuedCalls >= 1
      modifies this
      ensures Valid() && Grows(old(delegations), delegations)
      ensures ChildrenStay(old(children), children)
      ensures StartBrings(old(delegations), delegations, s)
      ensures r.StartThrew? ==> delegations == old(delegations) && children == old(children) && fuel == old(fuel)
      ensures r.StartThrew? <==> StartRefused(old(delegations), s, mayCall, paired)
      ensures fuel <= old(fuel) <= fuel + 3 && (r.StartCrashed? ==> fuel == 0 && old(fuel) < 3)
      ensures !KeyFree(old(delegations), s.parentSessionId, s.turnSeq, s.requestId) ==>
                SameCalls(old(delegations), delegations)
      ensures r.Started? ==> r.id in delegations && Answers(delegations[r.id].body, r.index, s)
      ensures r.Started? ==> delegations[r.id].body.status != CreatingChild
      ensures r.Started? && KeyFree(old(delegations), s.parentSessionId, s.turnSeq, s.requestId) ==>
                delegations[r.id].body.status == Open
      ensures r.Started? ==>
                (Reaches(delegations[r.id].body, s)
                 <==> KeyFree(old(delegations), s.parentSessionId, s.turnSeq, s.requestId)
                      || KeyReaches(old(delegations), s))
    {
      hide *;
      GrowsReflexive(delegations);
      SameCallsReflexive(delegations);
      SameCallsBringNone(delegations, delegations);
      NoneIsBrought(delegations, delegations, s);
      FreeNotMisused(delegations, s);
      StartRefusedForms(delegations, s, mayCall, paired);
      ChildrenStayReflexive(children);
      if !mayCall {
        return StartThrew;
      }
      var retry := FindCallByCallerKey(s.parentSessionId, s.turnSeq, s.requestId);
      if retry.Some? {
        r := Retry(s, retry.value.0, retry.value.1);
        return;
      }
      var existing := ReadDelegationByKey(s);
      if existing.Some? {
        r := AppendTo(s, existing.value);
        return;
      }
      if !paired || !Admits(s.maxInputBytes, s.input) {
        return StartThrew;
      }
      r := CreateFor(s);
    }

    /** The caller key is already there. */
    method Retry(s: StartInput, id: string, i: nat) returns (r: StartResult)
      requires Valid() && id in delegations && KeyAt(delegations[id].body, i, s.parentSessionId, s.turnSeq, s.requestId)
      modifies this
      ensures Valid() && Grows(old(delegations), delegations) && SameCalls(old(delegations), delegations)
      ensures ChildrenStay(old(children), children)
      ensures StartBrings(old(delegations), delegations, s)
      ensures r.StartThrew? ==> delegations == old(delegations) && children == old(children) && fuel == old(fuel)
      ensures r.StartThrew? <==> KeyMisused(old(delegations), s)
      ensures fuel <= old(fuel) <= fuel + 2 && (r.StartCrashed? ==> fuel == 0 && old(fuel) < 2)
      ensures r.Started? ==> r.id in delegations && Answers(delegations[r.id].body, r.index, s)
      ensures r.Started? ==> delegations[r.id].body.status != CreatingChild
      ensures old(delegations)[id].body.status != CreatingChild ==>
                delegations == old(delegations) && children == old(children)
      ensures r.Started? ==> (Reaches(delegations[r.id].body, s) <==> KeyReaches(old(delegations), s))
    {
      hide TableInv, IdsAhead, Grows, LogsBound, KeysUnique;
      GrowsReflexive(delegations);
      SameCallsBringNone(delegations, delegations);
      NoneIsBrought(delegations, delegations, s);
      KeyReachesIfItDoes(delegations, s, id, i);
      var d := delegations[id].body;
      if d.delegateId != s.delegateId || d.calls[i].input != s.input {
        return StartThrew;
      }
      MisusedHasNoAnswer(delegations, s, id, i);
      ghost var t := delegations;
      if d.status == CreatingChild {
        var attempt := EnsureChildAndOpen(id);
        SameCallsBringNone(t, delegations);
        NoneIsBrought(t, delegations, s);
        ReachesStays(t, delegations, id, s);
        if !attempt.Opened? {
          return StartCrashed;
        }
        AnswerStaysStored(t, delegations, id, i, s);
      }
      return Started(id, i);
    }

    /** `appendCall`, when no other client runs. */
    method AppendTo(s: StartInput, id: string) returns (r: StartResult)
      requires Valid() && IsRelation(delegations, id, s)
      requires KeyFree(delegations, s.parentSessionId, s.turnSeq, s.requestId)
      modifies this
      ensures Valid() && Grows(old(delegations), delegations)
      ensures ChildrenStay(old(children), children)
      ensures StartBrings(old(delegations), delegations, s)
      ensures r.StartThrew? ==> delegations == old(delegations) && children == old(children) && fuel == old(fuel)
      ensures r.StartThrew? <==> !Takes(old(delegations)[id].body, s.input)
      ensures fuel <= old(fuel) <= fuel + 3 && (r.StartCrashed? ==> fuel == 0 && old(fuel) < 3)
      ensures r.Started? ==> r.id in delegations && Answers(delegations[r.id].body, r.index, s)
      ensures old(delegations)[id].body.status == Open ==> children == old(children)
      ensures r.Started? && old(delegations)[id].body.status == CreatingChild ==>
                delegations[r.id].body.childSessionId in children
      ensures r.Started? ==> Reaches(delegations[r.id].body, s)
      ensures r.Started? ==> delegations[r.id].body.status == Open
    {
      hide TableInv, IdsAhead, Grows, LogsBound, KeysUnique, KeyFree, OwnIdsOf, Minted, OwnId;
      GrowsReflexive(delegations);
      SameCallsReflexive(delegations);
      SameCallsBringNone(delegations, delegations);
      NoneIsBrought(delegations, delegations, s);
      var d := delegations[id].body;
      var op := Append(OwnId(minted), s.turnSeq, s.requestId, s.input);
      var decision := Decide(op, d);
      TakesOrRefuses(d, op);
      if !decision.Write? {
        return StartThrew;
      }
      OwnAppendIds(minted, s.turnSeq, s.requestId, s.input);
      AheadIsMinted(delegations, op, minted, 1, children);
      ghost var t := delegations;
      var ok := Write(id, op, 1);
      if !ok {
        return StartCrashed;
      }
      ghost var t' := delegations;
      AppendBrings(t, t', id, op, s);
      if delegations[id].body.status == CreatingChild {
        var attempt := EnsureChildAndOpen(id);
        GrowsTransitive(t, t', delegations);
        BroughtStays(t, t', delegations, s);
        ReachesStays(t', delegations, id, s);
        if !attempt.Opened? {
          return StartCrashed;
        }
        AnswerStaysStored(t', delegations, id, |d.calls|, s);
      }
      return Started(id, |d.calls|);
    }

    /** No live delegation under the relation key: create one holding the call, then its child. */
    method CreateFor(s: StartInput) returns (r: StartResult)
      requires Valid() && s.maxQueuedCalls >= 1
      requires KeyFree(delegations, s.parentSessionId, s.turnSeq, s.requestId)
      requires forall a :: !IsRelation(delegations, a, s)
      modifies this
      ensures Valid() && Grows(old(delegations), delegations)
      ensures ChildrenStay(old(children), children)
      ensures StartBrings(old(delegations), delegations, s)
      ensures !r.StartThrew?
      ensures fuel <= old(fuel) <= fuel + 3 && (r.StartCrashed? ==> fuel == 0 && old(fuel) < 3)
      ensures r.Started? ==> r.id in delegations && Answers(delegations[r.id].body, r.index, s)
      ensures r.Started? ==> delegations[r.id].body.childSessionId in children
      ensures r.Started? ==> Reaches(delegations[r.id].body, s)
      ensures r.Started? ==> delegations[r.id].body.status == Open
    {
      hide TableInv, IdsAhead, Grows, LogsBound, KeysUnique, KeyFree, OwnId;
      GrowsReflexive(delegations);
      SameCallsReflexive(delegations);
      SameCallsBringNone(delegations, delegations);
      NoneIsBrought(delegations, delegations, s);
      if fuel == 0 {
        return StartCrashed;
      }
      ghost var t := delegations;
      var id, d := OwnId(minted), FirstRecord(s, minted);
      FirstRecordIsNew(t, s, minted);
      delegations := delegations[id := Versioned(1, d)];
      CreateKeepsWorld(t, delegations, d, minted, children);
      minted := minted + 3;
      fuel := fuel - 1;
      ghost var t' := delegations;
      CreateBrings(t, t', s, old(minted));
      assert Answers(d, 0, s);
      var attempt := EnsureChildAndOpen(id);
      GrowsTransitive(t, t', delegations);
      BroughtStays(t, t', delegations, s);
      ReachesStays(t', delegations, id, s);
      if !attempt.Opened? {
        return StartCrashed;
      }
      AnswerStaysStored(t', delegations, id, 0, s);
      return Started(id, 0);
    }

    /** The first half of `dispatchNext`: activate the next queued call. */
    method ActivateNext(id: string) returns (ok: bool)
      requires Valid() && id in delegations && delegations[id].body.childSessionId in children
      requires delegations[id].body.status == Open && ActiveIndex(delegations[id].body) == |delegations[id].body.calls|
      requires NextQueued(delegations[id].body.calls).Some?
      modifies this`delegations, this`minted, this`fuel
      ensures NoneBrought(old(delegations), delegations)
      ensures Valid() && Grows(old(delegations), delegations) && id in delegations
      ensures if ok then old(fuel) == fuel + 1 else old(fuel) == fuel == 0
      ensures !ok ==> delegations == old(delegations)
      ensures ok ==> delegations[id].body.activeCallId.Some?
      ensures ok ==> DueStays(old(delegations)[id].body, delegations[id].body)
      ensures ok ==> delegations[id].body.childSessionId == old(delegations)[id].body.childSessionId
      ensures ok ==> forall k: nat :: IsDue(delegations[id].body, k) ==> !HasInput(children, delegations[id].body, k)
    {
      hide TableInv, IdsAhead, Grows, LogsBound, KeysUnique, KeyFree, OwnId, OwnIdsOf, Minted, Decide, Shape, Evolves;
      var d := delegations[id].body;
      WorldShape(delegations, minted, children, id);
      var op := Activate(children[d.childSessionId].nextTurnSeq, OwnId(minted), OwnId(minted + 1));
      OwnActivateIds(minted, op.childTurnSeq);
      AheadIsMinted(delegations, op, minted, 2, children);
      ActivationWrites(d, op);
      ActivatedIsDue(d, op);
      NotYetLogged(delegations, minted, children, d.childSessionId, minted);
      hide IsDue, EventLogged;
      ok := Write(id, op, 2);
    }

    /** `dispatchNext`: activate the next queued call unless one is active, then hand the active call to the child
        until its command is accepted. Unless it dies or throws, it hands over a call exactly when one is due. */
    method DispatchNext(id: string) returns (r: DispatchResult)
      requires Valid()
      modifies this
      ensures NoneBrought(old(delegations), delegations)
      ensures Valid() && Grows(old(delegations), delegations)
      ensures children.Keys == old(children).Keys && LogsGrow(old(children), children)
      ensures fuel <= old(fuel) <= fuel + 3 && (r.DispatchCrashed? ==> fuel == 0 && old(fuel) < 3)
      ensures id in old(delegations) && !r.DispatchCrashed? ==>
                forall k: nat :: IsDue(old(delegations)[id].body, k) ==>
                  (r.DispatchThrew? <==> IsBlocked(old(children), old(delegations)[id].body, k))
      ensures !r.DispatchCrashed? ==> (r.DispatchThrew? <==> IsStuck(delegations, children, id))
      ensures r.DispatchThrew? && id in old(delegations) && NextQueued(old(delegations)[id].body.calls).None? ==>
                delegations == old(delegations) && children == old(children)
      ensures r.Idle? <==> id !in old(delegations) || forall k: nat :: !IsDue(old(delegations)[id].body, k)
      ensures r.Handed? ==>
                && id in delegations && r.call in delegations[id].body.calls && r.call.dispatch.Some?
                && InputLogged(children, delegations[id].body.childSessionId, r.call)
      ensures !r.DispatchCrashed? ==> LeftDispatched(delegations, children, id)
      ensures r.Handed? ==>
                forall k: nat :: IsDue(old(delegations)[id].body, k) ==>
                  old(delegations)[id].body.calls[k].callId == r.call.callId
    {
      hide LeftDispatched, NoneBrought, WorldInv, Grows, InputLogged, IsDue, LogsGrow, Shape, BringsInput;
      GrowsReflexive(delegations);
      BringsReflexive(delegations);
      LogsGrowReflexive(children);
      if id !in delegations || delegations[id].body.status != Open {
        NotOpenNotDue(delegations, id);
        NoneDueIsLeft(delegations, children, id);
        return Idle;
      }
      ghost var t := delegations;
      var d := delegations[id].body;
      WorldShape(delegations, minted, children, id);
      if ActiveIndex(d) == |d.calls| {
        NoneActiveDue(d);
        if NextQueued(d.calls).None? {
          NoneDueIsLeft(delegations, children, id);
          return Idle;
        }
        assert IsDue(d, NextQueued(d.calls).value);
        if d.childSessionId !in children {
          MissingIsLeft(delegations, children, id);
          return DispatchThrew;
        }
        var ok := ActivateNext(id);
        if !ok {
          return DispatchCrashed;
        }
      }
      r := HandOver(id);
    }

    /** The second half of `dispatchNext`: hand over the active call until its command is accepted. */
    method HandOver(id: string) returns (r: DispatchResult)
      requires Valid() && id in delegations && delegations[id].body.activeCallId.Some?
      modifies this`children, this`fuel
      ensures Valid() && children.Keys == old(children).Keys && LogsGrow(old(children), children)
      ensures fuel <= old(fuel) <= fuel + 2 && (r.DispatchCrashed? ==> fuel == 0 && old(fuel) < 2)
      ensures forall k: nat :: IsDue(delegations[id].body, k) ==>
                (r.DispatchThrew? <==> IsBlocked(old(children), delegations[id].body, k))
      ensures r.DispatchThrew? ==> children == old(children)
      ensures !r.DispatchCrashed? ==> (r.DispatchThrew? <==> IsStuck(delegations, children, id))
      ensures r.Idle? <==> forall k: nat :: !IsDue(delegations[id].body, k)
      ensures r.Handed? ==>
                && r.call in delegations[id].body.calls && r.call.dispatch.Some?
                && InputLogged(children, delegations[id].body.childSessionId, r.call)
      ensures !r.DispatchCrashed? ==> LeftDispatched(delegations, children, id)
      ensures r.Handed? ==>
                forall k: nat :: IsDue(delegations[id].body, k) ==>
                  delegations[id].body.calls[k].callId == r.call.callId
    {
      hide WorldInv, InputLogged, LogsGrow, Shape, BringsInput, EventLogged;
      LogsGrowReflexive(children);
      var d := delegations[id].body;
      WorldShape(delegations, minted, children, id);
      ActiveDue(d);
      hide IsDue, ActiveIndex;
      var i := ActiveIndex(d);
      if d.calls[i].dispatch.value.accepted {
        return Idle;
      }
      assert IsDue(d, i);
      r := PrepareCall(id, i);
      InputsOnlyGrow(old(children), children, d, i);
      if r.Handed? {
        HandedIsInput(children, d, i);
      }
    }

    /** `prepareCall`: one input event for the call in the child's log, however often this is repeated. A call whose
        event is logged is handed over with nothing written. */
    method PrepareCall(id: string, i: nat) returns (r: DispatchResult)
      requires Valid() && id in delegations && i < |delegations[id].body.calls|
      requires delegations[id].body.calls[i].dispatch.Some?
      modifies this`children, this`fuel
      ensures Valid() && (r.Handed? || r.DispatchThrew? || r.DispatchCrashed?)
      ensures r.Handed? ==> r.call == delegations[id].body.calls[i]
      ensures r.Handed? ==> InputLogged(children, delegations[id].body.childSessionId, r.call)
      ensures LoggedBefore(old(children), delegations[id].body, i) ==>
                children == old(children) && fuel == old(fuel) && r.Handed?
      ensures !LoggedBefore(old(children), delegations[id].body, i) && r.Handed? ==>
                BringsInput(old(children), children, delegations[id].body, i)
      ensures !LoggedBefore(old(children), delegations[id].body, i) && r.Handed? ==>
                var child := children[delegations[id].body.childSessionId];
                && child.status == ChildRunning
                && child.nextTurnSeq == delegations[id].body.calls[i].dispatch.value.childTurnSeq + 1
      ensures r.DispatchThrew? <==> IsBlocked(old(children), delegations[id].body, i)
      ensures r.DispatchThrew? ==> children == old(children) && fuel == old(fuel)
      ensures fuel <= old(fuel) <= fuel + 2 && (r.DispatchCrashed? ==> fuel == 0 && old(fuel) < 2)
      ensures r.DispatchCrashed? ==>
                children == old(children) || BringsInput(old(children), children, delegations[id].body, i)
    {
      hide TableInv, IdsAhead, KeysUnique;
      var c, call := delegations[id].body.childSessionId, delegations[id].body.calls[i];
      var e := InputEvent(call.dispatch.value.inputEventId, call.callId);
      if c !in children {
        return DispatchThrew;
      }
      if EventLogged(children, c, e.eventId) {
        LoggedIsThisCall(delegations, children, id, i);
        return Handed(call);
      }
      if children[c].status == ChildNotReady {
        return DispatchThrew;
      }
      if fuel == 0 {
        return DispatchCrashed;
      }
      assert Binds(call, e);
      LogGrows(delegations, children, c, e);
      children := children[c := children[c].(inputs := children[c].inputs + [e])];
      fuel := fuel - 1;
      assert children[c].inputs[|children[c].inputs| - 1] == e;
      assert InputLogged(children, c, call);
      if fuel == 0 {
        return DispatchCrashed;
      }
      hide BoundIn;
      children := children[c := children[c].(status := ChildRunning,
                                             nextTurnSeq := call.dispatch.value.childTurnSeq + 1)];
      fuel := fuel - 1;
      return Handed(call);
    }

    /** Any other handler's write: a completion, a failure, an acknowledgement, an await, a terminal close. */
    method OtherWrite(id: string, op: Op)
      requires Valid() && !op.Append? && !op.Activate?
      modifies this
      ensures Valid() && Grows(old(delegations), delegations) && children == old(children)
      ensures NoneBrought(old(delegations), delegations)
    {
      hide *;
      GrowsReflexive(delegations);
      BringsReflexive(delegations);
      NoIds(op, delegations, minted);
      if id in delegations && Decide(op, delegations[id].body).Write? {
        var ok := Write(id, op, 0);
      }
    }

    /** Other managers move a child session on: pausing, resuming, ending, its turn counter. */
    method ChildChanges(childId: string, status: ChildStatus, nextTurnSeq: nat)
      requires Valid()
      modifies this`children
      ensures Valid() && children.Keys == old(children).Keys && LogsGrow(old(children), children)
      ensures childId in children ==>
                children == old(children)[childId := Child(status, nextTurnSeq, old(children)[childId].inputs)]
      ensures childId !in children ==> children == old(children)
    {
      hide TableInv, IdsAhead, KeysUnique, BoundIn;
      if childId in children {
        children := children[childId := children[childId].(status := status, nextTurnSeq := nextTurnSeq)];
      }
    }

    /** Any number of passes, each dying after its own number of writes. No input event is ever taken back, so the one
        a call has is the only one it gets. */
    method Drive(passes: seq<Pass>)
      requires Valid() && forall p :: p in passes ==> Admissible(p)
      modifies this
      ensures Valid() && Grows(old(delegations), delegations) && LogsGrow(old(children), children)
    {
      hide Valid, Grows, LogsGrow, Admissible;
      GrowsReflexive(delegations);
      LogsGrowReflexive(children);
      for n := 0 to |passes|
        invariant Valid() && Grows(old(delegations), delegations) && LogsGrow(old(children), children)
      {
        ghost var t, cs := delegations, children;
        Refuel(passes[n].writes);
        assert passes[n] in passes;
        RunPass(passes[n]);
        GrowsTransitive(old(delegations), t, delegations);
        LogsGrowTransitive(old(children), cs, children);
      }
    }

    method RunPass(p: Pass)
      requires Valid() && Admissible(p)
      modifies this
      ensures PassBrings(old(delegations), delegations, p)
      ensures Valid() && Grows(old(delegations), delegations) && LogsGrow(old(children), children)
    {
      hide Valid, Grows, LogsGrow, ChildrenStay, StartBrings, NoneBrought;
      BringsReflexive(delegations);
      GrowsReflexive(delegations);
      LogsGrowReflexive(children);
      match p {
        case StartPass(_, s, mayCall, paired) =>
          ghost var cs := children;
          var started := StartCall(s, mayCall, paired);
          StayingLogsGrow(cs, children);
        case DispatchPass(_, id) => var handed := DispatchNext(id);
        case WritePass(_, id, op) => OtherWrite(id, op);
        case ChildPass(_, childId, status, nextTurnSeq) => ChildChanges(childId, status, nextTurnSeq);
      }
    }

    method Refuel(writes: nat)
      requires Valid()
      modifies this`fuel
      ensures Valid() && fuel == writes
    {
      fuel := writes;
    }
  }

  datatype Pass =
    | StartPass(writes: nat, start: StartInput, mayCall: bool, paired: bool)
    | DispatchPass(writes: nat, id: string)
    | WritePass(writes: nat, id: string, op: Op)
    | ChildPass(writes: nat, childId: string, status: ChildStatus, nextTurnSeq: nat)

  /** A start brings the caller's call at most, any other pass none. */
  ghost predicate PassBrings(t: Table<Record>, t': Table<Record>, p: Pass) {
    if p.StartPass? then StartBrings(t, t', p.start) else NoneBrought(t, t')
  }

  predicate Admissible(p: Pass) {
    match p
    case StartPass(_, s, _, _) => s.maxQueuedCalls >= 1
    case DispatchPass(_, _) => true
    case WritePass(_, _, op) => !op.Append? && !op.Activate?
    case ChildPass(_, _, _, _) => true
  }

  ghost predicate InputLogged(children: map<string, Child>, c: string, call: Call) {
    && c in children && call.dispatch.Some?
    && exists m :: 0 <= m < |children[c].inputs|
                   && children[c].inputs[m] == InputEvent(call.dispatch.value.inputEventId, call.callId)
  }

  /** The child's log already holds the event of the dispatched call `i`. */
  ghost predicate LoggedBefore(children: map<string, Child>, d: Record, i: nat)
    requires i < |d.calls| && d.calls[i].dispatch.Some?
  {
    EventLogged(children, d.childSessionId, d.calls[i].dispatch.value.inputEventId)
  }

  /** The child's log holds the event of the call `k`, if that has been dispatched at all. */
  ghost predicate HasInput(children: map<string, Child>, d: Record, k: nat)
    requires k < |d.calls|
  {
    d.calls[k].dispatch.Some? && LoggedBefore(children, d, k)
  }

  /** The call `k` cannot be handed over: its child session is missing, or is not ready for an input it has not had. */
  ghost predicate IsBlocked(children: map<string, Child>, d: Record, k: nat)
    requires k < |d.calls|
  {
    var c := d.childSessionId;
    !HasInput(children, d, k) && (c !in children || children[c].status == ChildNotReady)
  }

  /** A call of this delegation is due and cannot be handed over. */
  ghost predicate IsStuck(t: Table<Record>, children: map<string, Child>, id: string) {
    id in t && exists k: nat :: IsDue(t[id].body, k) && IsBlocked(children, t[id].body, k)
  }

  /** No call of this delegation that is due and can be handed over still waits for it. */
  ghost predicate LeftDispatched(t: Table<Record>, children: map<string, Child>, id: string) {
    id in t ==> forall k: nat :: IsDue(t[id].body, k) ==>
      HasInput(children, t[id].body, k) || IsBlocked(children, t[id].body, k)
  }

  lemma NoneDueIsLeft(t: Table<Record>, children: map<string, Child>, id: string)
    requires id in t ==> forall k: nat :: !IsDue(t[id].body, k)
    ensures LeftDispatched(t, children, id)
  {
    hide IsDue;
  }

  lemma MissingIsLeft(t: Table<Record>, children: map<string, Child>, id: string)
    requires id in t ==> t[id].body.childSessionId !in children
    ensures LeftDispatched(t, children, id)
  {
    hide OpenAt;
  }

  lemma HandedIsInput(children: map<string, Child>, d: Record, i: nat)
    requires i < |d.calls| && InputLogged(children, d.childSessionId, d.calls[i])
    ensures HasInput(children, d, i)
  {
  }

  lemma LoggedIsUsed(t: Table<Record>, children: map<string, Child>, c: string, eventId: string)
    requires LogsBound(t, children) && EventLogged(children, c, eventId)
    ensures !Unused(t, eventId)
  {
    var m :| 0 <= m < |children[c].inputs| && children[c].inputs[m].eventId == eventId;
    var e := children[c].inputs[m];
    assert BoundIn(t, c, e);
    var a, i: nat :| a in t && t[a].body.childSessionId == c && i < |t[a].body.calls| && Binds(t[a].body.calls[i], e);
    assert UsesEvent(t[a].body.calls[i], eventId);
  }

  /** An id that has yet to be minted is no event of any child's log. */
  lemma NotYetLogged(t: Table<Record>, minted: nat, children: map<string, Child>, c: string, n: nat)
    requires WorldInv(t, minted, children) && n >= minted
    ensures !EventLogged(children, c, OwnId(n))
  {
    hide TableInv, KeysUnique, LogsBound, Unused, EventLogged, OwnId;
    if EventLogged(children, c, OwnId(n)) {
      LoggedIsUsed(t, children, c, OwnId(n));
    }
  }

  /** The event of call `i` is appended to its child's log; no other child session is touched. */
  ghost predicate BringsInput(cs: map<string, Child>, cs': map<string, Child>, d: Record, i: nat)
    requires i < |d.calls| && d.calls[i].dispatch.Some?
  {
    var c := d.childSessionId;
    && c in cs && c in cs' && cs' == cs[c := cs'[c]]
    && cs'[c].inputs == cs[c].inputs + [InputEvent(d.calls[i].dispatch.value.inputEventId, d.calls[i].callId)]
  }

  lemma InputsOnlyGrow(cs: map<string, Child>, cs': map<string, Child>, d: Record, i: nat)
    requires i < |d.calls| && d.calls[i].dispatch.Some?
    requires cs' == cs || BringsInput(cs, cs', d, i)
    ensures cs'.Keys == cs.Keys && LogsGrow(cs, cs')
  {
  }

  /** Whatever was due still is, and is the same call. */
  ghost predicate DueStays(d: Record, d': Record) {
    && |d'.calls| == |d.calls|
    && forall k: nat :: IsDue(d, k) ==> IsDue(d', k) && d'.calls[k].callId == d.calls[k].callId
  }

  lemma NotOpenNotDue(t: Table<Record>, id: string)
    requires id in t ==> t[id].body.status != Open
    ensures id in t ==> forall k: nat :: !IsDue(t[id].body, k)
  {
  }

  lemma ActivationWrites(d: Record, op: Op)
    requires op.Activate? && d.status == Open && ActiveIndex(d) == |d.calls| && NextQueued(d.calls).Some?
    ensures Decide(op, d).Write?
  {
  }

  lemma WorldShape(t: Table<Record>, minted: nat, children: map<string, Child>, id: string)
    requires WorldInv(t, minted, children) && id in t
    ensures Shape(t[id].body)
  {
    hide Shape, IdsAhead, KeysUnique, LogsBound;
  }

  /** An event with the call's input id in the child's log carries this very call. */
  lemma LoggedIsThisCall(t: Table<Record>, children: map<string, Child>, id: string, i: nat)
    requires TableInv(t) && LogsBound(t, children) && id in t && i < |t[id].body.calls|
    requires t[id].body.calls[i].dispatch.Some?
    requires LoggedBefore(children, t[id].body, i)
    ensures InputLogged(children, t[id].body.childSessionId, t[id].body.calls[i])
  {
    hide Shape, LiveUnique, CallIdsDistinct;
    var c, call := t[id].body.childSessionId, t[id].body.calls[i];
    var m :| 0 <= m < |children[c].inputs| && children[c].inputs[m].eventId == call.dispatch.value.inputEventId;
    var e := children[c].inputs[m];
    assert BoundIn(t, c, e);
    var a, j: nat :| a in t && t[a].body.childSessionId == c && j < |t[a].body.calls| && Binds(t[a].body.calls[j], e);
    assert a == id;
    assert UsesEvent(t[a].body.calls[j], e.eventId) && UsesEvent(call, e.eventId);
    assert EventsOfCallsDistinct(t[id].body.calls);
    assert i == j;
  }

  /** `readDelegationByKey`: the first live delegation of the relation. */
  predicate LiveUnder(d: Record, parent: string, delegateId: string, targetRef: Option<string>) {
    && d.parentSessionId == parent && d.delegateId == delegateId && d.targetRef.GetOr("") == targetRef.GetOr("")
    && IsLive(d)
  }

  lemma SameCallsReflexive(t: Table<Record>)
    ensures SameCalls(t, t)
  {
  }

  lemma FreeNotMisused(t: Table<Record>, s: StartInput)
    ensures KeyFree(t, s.parentSessionId, s.turnSeq, s.requestId) ==> !KeyMisused(t, s)
  {
    if KeyFree(t, s.parentSessionId, s.turnSeq, s.requestId) {
      FreeMeansNone(t, s.parentSessionId, s.turnSeq, s.requestId);
    }
  }

  lemma AheadIsMinted(t: Table<Record>, op: Op, minted: nat, used: nat, children: map<string, Child>)
    requires WorldInv(t, minted, children) && OwnIdsOf(op, minted, used)
    ensures Minted(t, op)
  {
    hide TableInv, KeysUnique, LogsBound, OwnId;
    OwnIdsAreMinted(t, op, minted, used);
  }

  /** Only appends and activations bring ids and caller keys. */
  lemma NoIds(op: Op, t: Table<Record>, minted: nat)
    requires !op.Append? && !op.Activate?
    ensures OwnIdsOf(op, minted, 0) && Minted(t, op) && forall id :: id in t ==> KeyAllowedIn(t, id, op)
  {
    hide OwnId, KeyFree;
  }
}
