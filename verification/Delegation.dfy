/** The delegation record: a parent session's relation to one callee, with its queue of calls. Every manager
    operation reads the record, decides on a replacement and writes it with compare-and-set; the decisions are the
    functions here. */
module Delegation {
  import opened Basics

  // ---------- Records ----------

  datatype DelegationStatus = CreatingChild | Open | Closing | Closed | Failed

  datatype CloseReason = ParentTerminal | ActiveCallFailed | ChildTerminal

  datatype CallStatus = Queued | Active | CancelRequested | Completed | CallFailed | Cancelled | Expired

  datatype Failure = Failure(code: string, message: string)

  datatype Dispatch = Dispatch(childTurnSeq: nat, inputEventId: string, commandEventId: string, accepted: bool)

  datatype AwaitRequest = AwaitRequest(requestId: string, parentSessionId: string, parentTurnSeq: nat, responded: bool)

  datatype Call = Call(
    callId: string,
    callSeq: nat,
    callerTurnSeq: nat,
    callerRequestId: string,
    input: string,
    status: CallStatus,
    dispatch: Option<Dispatch>,
    awaits: seq<AwaitRequest>,
    result: Option<string>,
    failure: Option<Failure>)

  datatype Record = Record(
    parentSessionId: string,
    delegateId: string,
    targetRef: Option<string>,
    childSessionId: string,
    maxQueuedCalls: nat,
    maxInputBytes: nat,
    maxResultBytes: nat,
    status: DelegationStatus,
    activeCallId: Option<string>,
    nextCallSeq: nat,
    closeReason: Option<CloseReason>,
    failure: Option<Failure>,
    calls: seq<Call>)

  predicate IsTerminal(status: CallStatus) {
    status == Completed || status == CallFailed || status == Cancelled || status == Expired
  }

  /** A delegation in one of these states is a closed relation and no longer counts as the live one of its key. */
  predicate IsLive(d: Record) {
    d.status != Failed && d.status != Closed
  }

  /** An absent target and an empty one are the same key. */
  predicate SameKey(a: Record, b: Record) {
    && a.parentSessionId == b.parentSessionId
    && a.delegateId == b.delegateId
    && a.targetRef.GetOr("") == b.targetRef.GetOr("")
  }

  /** The create-time conflict: a live record under the same key. */
  predicate LiveClash(existing: Record, candidate: Record) {
    SameKey(existing, candidate) && IsLive(existing)
  }

  // ---------- Message limits ----------

  function Utf8Length(c: char): nat {
    if c as int < 0x80 then 1 else if c as int < 0x800 then 2 else if c as int < 0x10000 then 3 else 4
  }

  function ByteLength(s: string): nat {
    if s == "" then 0 else ByteLength(s[..|s| - 1]) + Utf8Length(s[|s| - 1])
  }

  predicate Admits(maxBytes: nat, message: string) {
    message != "" && ByteLength(message) <= maxBytes
  }

  // ---------- Decisions ----------

  /** What an operation does with the record it read: write a replacement, return without writing, or throw. */
  datatype Decision = Write(next: Record) | NoWrite | Reject

  function NewCall(callId: string, callSeq: nat, turnSeq: nat, requestId: string, input: string): Call {
    Call(callId, callSeq, turnSeq, requestId, input, Queued, None, [], None, None)
  }

  function NewDelegation(parentSessionId: string, delegateId: string, targetRef: Option<string>, childSessionId: string,
                         maxQueuedCalls: nat, maxInputBytes: nat, maxResultBytes: nat, call: Call): Record {
    Record(parentSessionId, delegateId, targetRef, childSessionId, maxQueuedCalls, maxInputBytes, maxResultBytes,
           CreatingChild, None, 2, None, None, [call])
  }

  function QueuedCount(calls: seq<Call>): nat {
    CountIf(calls, (c: Call) => c.status == Queued)
  }

  function MapCalls(calls: seq<Call>, f: Call -> Call): (r: seq<Call>)
    ensures |r| == |calls| && forall i :: 0 <= i < |calls| ==> r[i] == f(calls[i])
  {
    seq(|calls|, i requires 0 <= i < |calls| => f(calls[i]))
  }

  function ReplaceCall(calls: seq<Call>, replacement: Call): seq<Call> {
    MapCalls(calls, (c: Call) => if c.callId == replacement.callId then replacement else c)
  }

  function IndexOfCall(calls: seq<Call>, callId: string): (i: nat)
    ensures i <= |calls| && (i < |calls| ==> calls[i].callId == callId)
    ensures forall j :: 0 <= j < i ==> calls[j].callId != callId
  {
    FirstIndex(calls, (c: Call) => c.callId == callId)
  }

  /** The queued call with the lowest sequence number, if any. */
  function NextQueued(calls: seq<Call>): (i: Option<nat>)
    ensures i.Some? ==> i.value < |calls| && calls[i.value].status == Queued
    ensures i.Some? ==> forall j :: 0 <= j < |calls| && calls[j].status == Queued ==>
              calls[i.value].callSeq <= calls[j].callSeq
    ensures i.None? ==> forall j :: 0 <= j < |calls| ==> calls[j].status != Queued
  {
    if calls == [] then None
    else
      var best, last := NextQueued(calls[..|calls| - 1]), |calls| - 1;
      if calls[last].status == Queued && (best.None? || calls[last].callSeq < calls[best.value].callSeq) then Some(last)
      else best
  }

  function DecideAppend(d: Record, callId: string, turnSeq: nat, requestId: string, input: string): Decision {
    if d.status != Open && d.status != CreatingChild then Reject
    else if !Admits(d.maxInputBytes, input) then Reject
    else if QueuedCount(d.calls) >= d.maxQueuedCalls then Reject
    else Write(d.(calls := d.calls + [NewCall(callId, d.nextCallSeq, turnSeq, requestId, input)],
                  nextCallSeq := d.nextCallSeq + 1))
  }

  function DecideOpen(d: Record): Decision {
    if d.status == CreatingChild then Write(d.(status := Open))
    else if d.status == Open then NoWrite
    else Reject
  }

  /** The active call as the dispatcher looks it up, or `|calls|`. */
  function ActiveIndex(d: Record): (i: nat)
    ensures i <= |d.calls|
  {
    if d.activeCallId.Some? then IndexOfCall(d.calls, d.activeCallId.value) else |d.calls|
  }

  function Activated(c: Call, childTurnSeq: nat, inputEventId: string, commandEventId: string): Call {
    c.(status := Active, dispatch := Some(Dispatch(childTurnSeq, inputEventId, commandEventId, false)))
  }

  function DecideActivate(d: Record, childTurnSeq: nat, inputEventId: string, commandEventId: string): Decision {
    if d.status != Open then NoWrite
    else if ActiveIndex(d) < |d.calls| then NoWrite
    else
      var next := NextQueued(d.calls);
      if next.None? then NoWrite
      else
        var call := Activated(d.calls[next.value], childTurnSeq, inputEventId, commandEventId);
        Write(d.(activeCallId := Some(call.callId), calls := ReplaceCall(d.calls, call)))
  }

  function CommandIndex(d: Record, commandEventId: string, turnSeq: nat): (i: nat)
    ensures i <= |d.calls|
    ensures i < |d.calls| ==> d.calls[i].dispatch.Some?
    ensures i < |d.calls| ==> d.calls[i].dispatch.value.commandEventId == commandEventId
    ensures i < |d.calls| ==> d.calls[i].dispatch.value.childTurnSeq == turnSeq
  {
    FirstIndex(d.calls, (c: Call) => c.dispatch.Some? && c.dispatch.value.commandEventId == commandEventId
                                     && c.dispatch.value.childTurnSeq == turnSeq)
  }

  function DecideAcknowledge(d: Record, commandEventId: string, turnSeq: nat): Decision {
    var i := CommandIndex(d, commandEventId, turnSeq);
    if i == |d.calls| then Reject
    else if d.calls[i].dispatch.value.accepted || IsTerminal(d.calls[i].status) then NoWrite
    else
      var dispatch := d.calls[i].dispatch.value.(accepted := true);
      Write(d.(calls := ReplaceCall(d.calls, d.calls[i].(dispatch := Some(dispatch)))))
  }

  /** The active call when it belongs to the reported turn. */
  predicate AnswersTurn(d: Record, turnSeq: nat) {
    var i := ActiveIndex(d);
    && d.activeCallId.Some? && i < |d.calls| && d.calls[i].dispatch.Some?
    && d.calls[i].dispatch.value.childTurnSeq == turnSeq
  }

  function DecideComplete(d: Record, turnSeq: nat, result: string): Decision {
    if !AnswersTurn(d, turnSeq) || !Admits(d.maxResultBytes, result) then Reject
    else
      var call := d.calls[ActiveIndex(d)].(status := Completed, result := Some(result));
      Write(d.(calls := ReplaceCall(d.calls, call), activeCallId := None))
  }

  function DecideFail(d: Record, turnSeq: nat, message: string): Decision {
    if !AnswersTurn(d, turnSeq) then Reject
    else
      var failure := Failure("child_turn_failed", message);
      var call := d.calls[ActiveIndex(d)].(status := CallFailed, failure := Some(failure));
      Write(d.(
        status := Failed,
        activeCallId := None,
        closeReason := Some(ActiveCallFailed),
        failure := Some(failure),
        calls := MapCalls(d.calls, (c: Call) =>
          if c.callId == call.callId then call
          else if c.status == Queued then
            c.(status := CallFailed, failure := Some(Failure("delegation_closed", message)))
          else c)))
  }

  function DecideClose(d: Record, reason: CloseReason, failure: Failure): Decision {
    if d.closeReason == Some(reason) then NoWrite
    else
      Write(d.(
        status := Failed,
        activeCallId := None,
        closeReason := Some(reason),
        failure := Some(failure),
        calls := MapCalls(d.calls, (c: Call) => if IsTerminal(c.status) then c
                          else c.(status := CallFailed, failure := Some(failure)))))
  }

  function DecideRegisterAwait(d: Record, callId: string, requestId: string, parentSessionId: string,
                               turnSeq: nat): Decision {
    var i := IndexOfCall(d.calls, callId);
    if i == |d.calls| || d.parentSessionId != parentSessionId then Reject
    else if exists j :: 0 <= j < |d.calls[i].awaits| && d.calls[i].awaits[j].requestId == requestId then NoWrite
    else
      var added := AwaitRequest(requestId, parentSessionId, turnSeq, false);
      Write(d.(calls := ReplaceCall(d.calls, d.calls[i].(awaits := d.calls[i].awaits + [added]))))
  }

  function Responded(awaits: seq<AwaitRequest>, requestId: string): (r: seq<AwaitRequest>)
    ensures |r| == |awaits|
    ensures forall i :: 0 <= i < |awaits| ==>
              r[i] == if awaits[i].requestId == requestId then awaits[i].(responded := true) else awaits[i]
  {
    seq(|awaits|, i requires 0 <= i < |awaits| => if awaits[i].requestId == requestId then awaits[i].(responded := true)
        else awaits[i])
  }

  function DecideMarkResponded(d: Record, callId: string, requestId: string): Decision {
    var i := IndexOfCall(d.calls, callId);
    if i == |d.calls| then Reject
    else
      var j := FirstIndex(d.calls[i].awaits, (r: AwaitRequest) => r.requestId == requestId);
      if j == |d.calls[i].awaits| || d.calls[i].awaits[j].responded then NoWrite
      else Write(d.(calls := ReplaceCall(d.calls, d.calls[i].(awaits := Responded(d.calls[i].awaits, requestId)))))
  }

  /** Every write any manager makes to a stored delegation. */
  datatype Op =
    | Append(callId: string, turnSeq: nat, requestId: string, input: string)
    | OpenChild
    | Activate(childTurnSeq: nat, inputEventId: string, commandEventId: string)
    | Acknowledge(commandEventId: string, turnSeq: nat)
    | Complete(turnSeq: nat, result: string)
    | Fail(turnSeq: nat, message: string)
    | Close(reason: CloseReason, failure: Failure)
    | RegisterAwait(callId: string, requestId: string, parentSessionId: string, turnSeq: nat)
    | MarkResponded(callId: string, requestId: string)

  function Decide(op: Op, d: Record): Decision {
    match op
    case Append(callId, turnSeq, requestId, input) => DecideAppend(d, callId, turnSeq, requestId, input)
    case OpenChild => DecideOpen(d)
    case Activate(turnSeq, inputEventId, commandEventId) => DecideActivate(d, turnSeq, inputEventId, commandEventId)
    case Acknowledge(commandEventId, turnSeq) => DecideAcknowledge(d, commandEventId, turnSeq)
    case Complete(turnSeq, result) => DecideComplete(d, turnSeq, result)
    case Fail(turnSeq, message) => DecideFail(d, turnSeq, message)
    case Close(reason, failure) => DecideClose(d, reason, failure)
    case RegisterAwait(callId, requestId, parent, turnSeq) => DecideRegisterAwait(d, callId, requestId, parent, turnSeq)
    case MarkResponded(callId, requestId) => DecideMarkResponded(d, callId, requestId)
  }

  /** Ids are minted as UUIDs, so an appended call's id is new to its record. */
  predicate FreshFor(op: Op, d: Record) {
    op.Append? ==> forall i :: 0 <= i < |d.calls| ==> d.calls[i].callId != op.callId
  }

  // ---------- The shape of a record ----------

  /** No await request of a call is registered twice. */
  predicate DistinctAwaits(awaits: seq<AwaitRequest>) {
    forall i, j :: 0 <= i < j < |awaits| ==> awaits[i].requestId != awaits[j].requestId
  }

  /** Which fields a call of each status carries. */
  predicate CallShape(c: Call) {
    && DistinctAwaits(c.awaits)
    && match c.status {
         case Queued => c.dispatch.None? && c.result.None? && c.failure.None?
         case Active => c.dispatch.Some? && c.result.None? && c.failure.None?
         case Completed => c.dispatch.Some? && c.result.Some? && c.failure.None?
         case CallFailed => c.result.None? && c.failure.Some?
         case _ => false
       }
  }

  /** An open record reads: `k` completed calls, then the active call if one is named, then queued calls. */
  predicate OpenAt(d: Record, k: nat) {
    && k <= |d.calls|
    && (forall i :: 0 <= i < k ==> d.calls[i].status == Completed)
    && match d.activeCallId {
         case None => forall i :: k <= i < |d.calls| ==> d.calls[i].status == Queued
         case Some(id) =>
           && k < |d.calls| && d.calls[k].status == Active && d.calls[k].callId == id
           && forall i :: k < i < |d.calls| ==> d.calls[i].status == Queued
       }
  }

  ghost predicate StatusShape(d: Record) {
    match d.status
    case CreatingChild => d.activeCallId.None? && forall i :: 0 <= i < |d.calls| ==> d.calls[i].status == Queued
    case Open => exists k: nat :: OpenAt(d, k)
    case Failed =>
      && d.activeCallId.None? && d.closeReason.Some? && d.failure.Some?
      && forall i :: 0 <= i < |d.calls| ==> IsTerminal(d.calls[i].status)
    case _ => false
  }

  ghost predicate Shape(d: Record) {
    && |d.calls| >= 1 && d.nextCallSeq == |d.calls| + 1
    && (forall i :: 0 <= i < |d.calls| ==> d.calls[i].callSeq == i + 1 && CallShape(d.calls[i]))
    && (forall i, j :: 0 <= i < j < |d.calls| ==> d.calls[i].callId != d.calls[j].callId)
    && QueuedCount(d.calls) <= d.maxQueuedCalls
    && (d.status != Failed ==> d.closeReason.None?)
    && StatusShape(d)
  }

  // ---------- What never changes back ----------

  function Progress(status: CallStatus): nat {
    if status == Queued then 0 else if IsTerminal(status) then 2 else 1
  }

  predicate AwaitsEvolve(a: seq<AwaitRequest>, b: seq<AwaitRequest>) {
    && |a| <= |b|
    && forall i :: 0 <= i < |a| ==> b[i] == a[i] || b[i] == a[i].(responded := true)
  }

  predicate DispatchEvolves(a: Option<Dispatch>, b: Option<Dispatch>) {
    a.Some? ==> b == a || b == Some(a.value.(accepted := true))
  }

  /** A call keeps its identity and its dispatch ids, moves only towards a terminal status, and once terminal keeps
      its status, result and failure. */
  predicate CallEvolves(a: Call, b: Call) {
    && b.callId == a.callId && b.callSeq == a.callSeq && b.input == a.input
    && b.callerTurnSeq == a.callerTurnSeq && b.callerRequestId == a.callerRequestId
    && AwaitsEvolve(a.awaits, b.awaits)
    && DispatchEvolves(a.dispatch, b.dispatch)
    && (IsTerminal(a.status) ==>
          b.status == a.status && b.result == a.result && b.failure == a.failure && b.dispatch == a.dispatch)
    && Progress(a.status) <= Progress(b.status)
  }

  predicate StatusEvolves(a: DelegationStatus, b: DelegationStatus) {
    || a == b || b == Failed
    || (a == CreatingChild && b == Open)
  }

  predicate Evolves(a: Record, b: Record) {
    && SameKey(a, b) && b.targetRef == a.targetRef && b.childSessionId == a.childSessionId
    && b.maxQueuedCalls == a.maxQueuedCalls && b.maxInputBytes == a.maxInputBytes
    && b.maxResultBytes == a.maxResultBytes
    && StatusEvolves(a.status, b.status)
    && |a.calls| <= |b.calls| && (a.status == Failed ==> |b.calls| == |a.calls|)
    && forall i :: 0 <= i < |a.calls| ==> CallEvolves(a.calls[i], b.calls[i])
  }

  lemma CallEvolvesReflexive(a: Call)
    ensures CallEvolves(a, a)
  {
  }

  lemma EvolvesReflexive(a: Record)
    ensures Evolves(a, a)
  {
  }

  lemma CallEvolvesTransitive(a: Call, b: Call, c: Call)
    requires CallEvolves(a, b) && CallEvolves(b, c)
    ensures CallEvolves(a, c)
  {
  }

  lemma EvolvesTransitive(a: Record, b: Record, c: Record)
    requires Evolves(a, b) && Evolves(b, c)
    ensures Evolves(a, c)
  {
    forall i | 0 <= i < |a.calls| ensures CallEvolves(a.calls[i], c.calls[i]) {
      CallEvolvesTransitive(a.calls[i], b.calls[i], c.calls[i]);
    }
  }

  // ---------- Every operation keeps the shape and only evolves the record ----------

  /** Replacing the one call at index `i`. */
  lemma ReplaceAt(calls: seq<Call>, i: nat, c: Call)
    requires i < |calls| && c.callId == calls[i].callId
    requires forall j, k :: 0 <= j < k < |calls| ==> calls[j].callId != calls[k].callId
    ensures ReplaceCall(calls, c) == calls[i := c]
    ensures c.status != Queued ==> QueuedCount(calls[i := c]) <= QueuedCount(calls)
    ensures c.status == calls[i].status ==> QueuedCount(calls[i := c]) <= QueuedCount(calls)
  {
    if c.status != Queued || c.status == calls[i].status {
      CountIfMonotone(calls[i := c], calls, (c: Call) => c.status == Queued);
    }
  }

  /** Shape and evolution, call by call. */
  lemma CallwiseKeeps(d: Record, d': Record)
    requires Shape(d) && d' == d.(status := d'.status, activeCallId := d'.activeCallId, closeReason := d'.closeReason,
                                  failure := d'.failure, calls := d'.calls)
    requires |d'.calls| == |d.calls| && StatusShape(d') && StatusEvolves(d.status, d'.status)
    requires d'.status != Failed ==> d'.closeReason.None?
    requires forall i :: 0 <= i < |d.calls| ==> CallEvolves(d.calls[i], d'.calls[i]) && CallShape(d'.calls[i])
    requires forall i :: 0 <= i < |d.calls| ==> d'.calls[i].status == Queued ==> d.calls[i].status == Queued
    ensures Shape(d') && Evolves(d, d')
  {
    CountIfMonotone(d'.calls, d.calls, (c: Call) => c.status == Queued);
    hide StatusShape, CallShape, AwaitsEvolve, DispatchEvolves;
  }

  lemma AppendKeepsStatusShape(d: Record, d': Record, call: Call)
    requires StatusShape(d) && (d.status == Open || d.status == CreatingChild) && call.status == Queued
    requires d' == d.(calls := d.calls + [call], nextCallSeq := d.nextCallSeq + 1)
    ensures StatusShape(d')
  {
    if d.status == Open {
      var k: nat :| OpenAt(d, k);
      assert OpenAt(d', k);
    }
  }

  lemma AppendKeeps(d: Record, op: Op)
    requires op.Append? && Shape(d) && FreshFor(op, d) && Decide(op, d).Write?
    ensures Shape(Decide(op, d).next) && Evolves(d, Decide(op, d).next)
  {
    var d', call := Decide(op, d).next, NewCall(op.callId, d.nextCallSeq, op.turnSeq, op.requestId, op.input);
    CountIfConcat(d.calls, [call], (c: Call) => c.status == Queued);
    AppendKeepsStatusShape(d, d', call);
    assert QueuedCount(d'.calls) <= d'.maxQueuedCalls;
    hide StatusShape, QueuedCount, CallEvolves;
    forall i | 0 <= i < |d.calls| ensures CallEvolves(d.calls[i], d'.calls[i]) {
      CallEvolvesReflexive(d.calls[i]);
    }
  }

  lemma OpenKeeps(d: Record)
    requires Shape(d) && DecideOpen(d).Write?
    ensures Shape(DecideOpen(d).next) && Evolves(d, DecideOpen(d).next)
  {
    assert OpenAt(DecideOpen(d).next, 0);
  }

  /** With one call active nothing is activated; with none, the call activated is the first queued one. */
  lemma NextQueuedIsFirst(d: Record, k: nat)
    requires Shape(d) && OpenAt(d, k) && d.activeCallId.None?
    ensures NextQueued(d.calls) == if k < |d.calls| then Some(k) else None
  {
    var i := NextQueued(d.calls);
    if k < |d.calls| {
      assert d.calls[k].status == Queued;
      assert d.calls[i.value].callSeq <= d.calls[k].callSeq;
    }
  }

  lemma ActiveIsIndexed(d: Record, k: nat)
    requires Shape(d) && OpenAt(d, k)
    ensures ActiveIndex(d) == if d.activeCallId.Some? then k else |d.calls|
  {
  }

  lemma ActivateKeeps(d: Record, op: Op)
    requires op.Activate? && Shape(d) && Decide(op, d).Write?
    ensures Shape(Decide(op, d).next) && Evolves(d, Decide(op, d).next)
  {
    var d' := Decide(op, d).next;
    var k: nat :| OpenAt(d, k);
    ActiveIsIndexed(d, k);
    NextQueuedIsFirst(d, k);
    var call := Activated(d.calls[k], op.childTurnSeq, op.inputEventId, op.commandEventId);
    ReplaceAt(d.calls, k, call);
    assert d'.calls == d.calls[k := call];
    assert OpenAt(d', k);
    CallwiseKeeps(d, d');
  }

  /** The status shape depends on the calls only through their ids and statuses. */
  lemma StatusShapeDependsOnStatuses(d: Record, calls: seq<Call>)
    requires StatusShape(d) && |calls| == |d.calls|
    requires forall i :: 0 <= i < |calls| ==>
               calls[i].status == d.calls[i].status && calls[i].callId == d.calls[i].callId
    ensures StatusShape(d.(calls := calls))
  {
    if d.status == Open {
      var k: nat :| OpenAt(d, k);
      assert OpenAt(d.(calls := calls), k);
    }
  }

  /** A record whose call `i` is replaced by one of the same status keeps its status shape. */
  lemma SameStatusKeeps(d: Record, d': Record, i: nat, c: Call)
    requires Shape(d) && i < |d.calls| && CallShape(c) && CallEvolves(d.calls[i], c) && c.status == d.calls[i].status
    requires d' == d.(calls := ReplaceCall(d.calls, c))
    ensures Shape(d') && Evolves(d, d')
  {
    ReplaceAt(d.calls, i, c);
    StatusShapeDependsOnStatuses(d, d.calls[i := c]);
    hide StatusShape, QueuedCount, ReplaceCall;
    assert d'.calls == d.calls[i := c];
    forall j | 0 <= j < |d.calls| ensures CallEvolves(d.calls[j], d'.calls[j]) {
    }
  }

  lemma AcknowledgeKeeps(d: Record, op: Op)
    requires op.Acknowledge? && Shape(d) && Decide(op, d).Write?
    ensures Shape(Decide(op, d).next) && Evolves(d, Decide(op, d).next)
  {
    var i := CommandIndex(d, op.commandEventId, op.turnSeq);
    var c := d.calls[i].(dispatch := Some(d.calls[i].dispatch.value.(accepted := true)));
    SameStatusKeeps(d, Decide(op, d).next, i, c);
  }

  lemma CompleteKeeps(d: Record, op: Op)
    requires op.Complete? && Shape(d) && Decide(op, d).Write?
    ensures Shape(Decide(op, d).next) && Evolves(d, Decide(op, d).next)
  {
    var d' := Decide(op, d).next;
    var k: nat :| OpenAt(d, k);
    ActiveIsIndexed(d, k);
    var call := d.calls[k].(status := Completed, result := Some(op.result));
    ReplaceAt(d.calls, k, call);
    assert d'.calls == d.calls[k := call];
    assert OpenAt(d', k + 1);
    CallwiseKeeps(d, d');
  }

  /** A failing turn fails its own call and every queued one behind it, and leaves the completed ones alone. */
  lemma FailedCalls(d: Record, op: Op, k: nat)
    requires op.Fail? && Shape(d) && Decide(op, d).Write? && OpenAt(d, k)
    ensures var d' := Decide(op, d).next;
            && k < |d.calls| && |d'.calls| == |d.calls|
            && d'.calls[..k] == d.calls[..k]
            && d'.calls[k] == d.calls[k].(status := CallFailed,
                                          failure := Some(Failure("child_turn_failed", op.message)))
            && forall i :: k < i < |d.calls| ==>
                 d'.calls[i] == d.calls[i].(status := CallFailed,
                                            failure := Some(Failure("delegation_closed", op.message)))
  {
    ActiveIsIndexed(d, k);
    assert forall i :: 0 <= i < |d.calls| ==> (d.calls[i].callId == d.calls[k].callId <==> i == k);
    hide Evolves, CallEvolves, CallShape, QueuedCount;
  }

  lemma FailKeeps(d: Record, op: Op)
    requires op.Fail? && Shape(d) && Decide(op, d).Write?
    ensures Shape(Decide(op, d).next) && Evolves(d, Decide(op, d).next)
  {
    var d' := Decide(op, d).next;
    var k: nat :| OpenAt(d, k);
    FailedCalls(d, op, k);
    assert d' == d.(status := d'.status, activeCallId := d'.activeCallId, closeReason := d'.closeReason,
                    failure := d'.failure, calls := d'.calls);
    forall i | 0 <= i < |d.calls|
      ensures CallEvolves(d.calls[i], d'.calls[i]) && CallShape(d'.calls[i]) && IsTerminal(d'.calls[i].status)
    {
      if i < k {
        assert d'.calls[i] == d'.calls[..k][i] == d.calls[i];
      }
    }
    assert StatusShape(d');
    CallwiseKeeps(d, d');
  }

  lemma CloseKeeps(d: Record, op: Op)
    requires op.Close? && Shape(d) && Decide(op, d).Write?
    ensures Shape(Decide(op, d).next) && Evolves(d, Decide(op, d).next)
  {
    var d' := Decide(op, d).next;
    assert StatusShape(d');
    CallwiseKeeps(d, d');
  }

  lemma RegisterAwaitKeeps(d: Record, op: Op)
    requires op.RegisterAwait? && Shape(d) && Decide(op, d).Write?
    ensures Shape(Decide(op, d).next) && Evolves(d, Decide(op, d).next)
  {
    var i := IndexOfCall(d.calls, op.callId);
    var added := AwaitRequest(op.requestId, op.parentSessionId, op.turnSeq, false);
    var c := d.calls[i].(awaits := d.calls[i].awaits + [added]);
    SameStatusKeeps(d, Decide(op, d).next, i, c);
  }

  lemma MarkRespondedKeeps(d: Record, op: Op)
    requires op.MarkResponded? && Shape(d) && Decide(op, d).Write?
    ensures Shape(Decide(op, d).next) && Evolves(d, Decide(op, d).next)
  {
    var i := IndexOfCall(d.calls, op.callId);
    var c := d.calls[i].(awaits := Responded(d.calls[i].awaits, op.requestId));
    SameStatusKeeps(d, Decide(op, d).next, i, c);
  }

  /** Whatever any manager writes over a well-shaped delegation is well shaped, and never takes back a terminal
      outcome, a dispatch binding, a delivered answer or a failed status. */
  lemma EveryWriteKeepsShape(d: Record, op: Op)
    requires Shape(d) && FreshFor(op, d) && Decide(op, d).Write?
    ensures Shape(Decide(op, d).next) && Evolves(d, Decide(op, d).next)
  {
    match op
    case Append(_, _, _, _) => AppendKeeps(d, op);
    case OpenChild => OpenKeeps(d);
    case Activate(_, _, _) => ActivateKeeps(d, op);
    case Acknowledge(_, _) => AcknowledgeKeeps(d, op);
    case Complete(_, _) => CompleteKeeps(d, op);
    case Fail(_, _) => FailKeeps(d, op);
    case Close(_, _) => CloseKeeps(d, op);
    case RegisterAwait(_, _, _, _) => RegisterAwaitKeeps(d, op);
    case MarkResponded(_, _) => MarkRespondedKeeps(d, op);
  }

  // ---------- What each decision does to an open delegation ----------

  /** A completion is taken exactly for the active call's own turn and an admissible result; it completes that call,
      frees the delegation for the next one and touches nothing else. */
  lemma CompleteExactly(d: Record, k: nat, turnSeq: nat, result: string)
    requires Shape(d) && OpenAt(d, k)
    ensures var decision := DecideComplete(d, turnSeq, result);
            && !decision.NoWrite?
            && (decision.Write? <==> d.activeCallId.Some? && d.calls[k].dispatch.value.childTurnSeq == turnSeq
                                     && Admits(d.maxResultBytes, result))
            && (decision.Write? ==> decision.next == d.(activeCallId := None,
                                      calls := d.calls[k := d.calls[k].(status := Completed, result := Some(result))]))
  {
    ActiveIsIndexed(d, k);
    if k < |d.calls| {
      ReplaceAt(d.calls, k, d.calls[k].(status := Completed, result := Some(result)));
    }
  }

  /** Opening moves on exactly a delegation whose child is being created; it is silent for an open one and refused for
      one that is over. */
  lemma OpenExactly(d: Record)
    ensures match d.status
            case CreatingChild => DecideOpen(d) == Write(d.(status := Open))
            case Open => DecideOpen(d) == NoWrite
            case _ => DecideOpen(d) == Reject
  {
  }

  /** A failure is taken exactly for the active call's own turn. It keeps the completed calls, fails the active one with
      the message, fails every call queued behind it, and closes the delegation for that reason. */
  lemma FailExactly(d: Record, k: nat, turnSeq: nat, message: string)
    requires Shape(d) && OpenAt(d, k)
    ensures var decision := DecideFail(d, turnSeq, message);
            && !decision.NoWrite?
            && (decision.Write? <==> d.activeCallId.Some? && d.calls[k].dispatch.value.childTurnSeq == turnSeq)
            && (decision.Write? ==>
                  && decision.next == d.(status := Failed, activeCallId := None, closeReason := Some(ActiveCallFailed),
                                         failure := Some(Failure("child_turn_failed", message)),
                                         calls := decision.next.calls)
                  && |decision.next.calls| == |d.calls| && decision.next.calls[..k] == d.calls[..k]
                  && decision.next.calls[k] == d.calls[k].(status := CallFailed,
                                                           failure := Some(Failure("child_turn_failed", message)))
                  && forall i :: k < i < |d.calls| ==>
                       decision.next.calls[i] == d.calls[i].(status := CallFailed,
                                                             failure := Some(Failure("delegation_closed", message))))
  {
    ActiveIsIndexed(d, k);
    if DecideFail(d, turnSeq, message).Write? {
      FailedCalls(d, Fail(turnSeq, message), k);
    }
  }

  /** Activation takes the first call that is not completed, exactly when none is active and one is waiting. */
  lemma ActivateExactly(d: Record, k: nat, childTurnSeq: nat, inputEventId: string, commandEventId: string)
    requires Shape(d) && d.status == Open && OpenAt(d, k)
    ensures var decision := DecideActivate(d, childTurnSeq, inputEventId, commandEventId);
            && (decision.Write? <==> d.activeCallId.None? && k < |d.calls|) && !decision.Reject?
            && (decision.Write? ==> decision.next == d.(activeCallId := Some(d.calls[k].callId),
                                      calls := d.calls[k := d.calls[k].(status := Active,
                                                              dispatch := Some(Dispatch(childTurnSeq, inputEventId,
                                                                                        commandEventId, false)))]))
  {
    ActiveIsIndexed(d, k);
    if d.activeCallId.None? {
      NextQueuedIsFirst(d, k);
      if k < |d.calls| {
        ReplaceAt(d.calls, k, Activated(d.calls[k], childTurnSeq, inputEventId, commandEventId));
      }
    }
  }

  /** Call `k` is due to be handed to the child session: the first call that is not completed, unless the child has
      accepted it already. */
  ghost predicate IsDue(d: Record, k: nat) {
    && d.status == Open && k < |d.calls| && OpenAt(d, k)
    && !(d.calls[k].dispatch.Some? && d.calls[k].dispatch.value.accepted)
  }

  /** With no call active, the call due is the one picked for activation. */
  lemma NoneActiveDue(d: Record)
    requires Shape(d) && d.status == Open && ActiveIndex(d) == |d.calls|
    ensures forall k: nat :: IsDue(d, k) <==> NextQueued(d.calls) == Some(k)
    ensures forall k: nat :: IsDue(d, k) ==> d.calls[k].dispatch.None?
  {
    var k: nat :| OpenAt(d, k);
    ActiveIsIndexed(d, k);
    NextQueuedIsFirst(d, k);
  }

  /** With a call active, that call is due until its command is accepted. */
  lemma ActiveDue(d: Record)
    requires Shape(d) && d.activeCallId.Some?
    ensures ActiveIndex(d) < |d.calls| && d.calls[ActiveIndex(d)].dispatch.Some?
    ensures d.calls[ActiveIndex(d)].callId == d.activeCallId.value
    ensures forall k: nat :: IsDue(d, k) <==> k == ActiveIndex(d) && !d.calls[k].dispatch.value.accepted
  {
    var k: nat :| OpenAt(d, k);
    ActiveIsIndexed(d, k);
    hide QueuedCount;
  }

  /** Activation keeps the due call due, and makes it the active one. */
  lemma ActivatedIsDue(d: Record, op: Op)
    requires op.Activate? && Shape(d) && Decide(op, d).Write?
    ensures var d' := Decide(op, d).next;
            && d'.activeCallId.Some? && |d'.calls| == |d.calls| && d'.childSessionId == d.childSessionId
            && (forall k: nat :: IsDue(d', k) ==>
                  d'.calls[k].dispatch.Some? && d'.calls[k].dispatch.value.inputEventId == op.inputEventId)
            && forall k: nat :: IsDue(d, k) ==> IsDue(d', k) && d'.calls[k].callId == d.calls[k].callId
  {
    var k: nat :| OpenAt(d, k);
    ActivateExactly(d, k, op.childTurnSeq, op.inputEventId, op.commandEventId);
    NoneActiveDue(d);
    NextQueuedIsFirst(d, k);
    assert OpenAt(Decide(op, d).next, k);
  }

  /** A failed delegation has nothing to dispatch, to complete or to append to. */
  lemma FailedIsOver(d: Record)
    requires Shape(d) && d.status == Failed
    ensures NextQueued(d.calls).None?
    ensures forall turnSeq, result :: DecideComplete(d, turnSeq, result).Reject?
    ensures forall turnSeq, message :: DecideFail(d, turnSeq, message).Reject?
    ensures forall callId, turnSeq, requestId, input :: DecideAppend(d, callId, turnSeq, requestId, input).Reject?
  {
    hide QueuedCount, CallShape, Admits;
  }

  /** A terminal close of a delegation that has not failed keeps every completed result, ends all other calls with the
      given failure, and so leaves nothing to dispatch, complete or append to. */
  lemma CloseExactly(d: Record, k: nat, reason: CloseReason, failure: Failure)
    requires Shape(d) && d.status != Failed && OpenAt(d, k)
    ensures DecideClose(d, reason, failure).Write?
    ensures var d' := DecideClose(d, reason, failure).next;
            && Shape(d') && d'.status == Failed && |d'.calls| == |d.calls| && d'.calls[..k] == d.calls[..k]
            && (forall i :: k <= i < |d.calls| ==>
                  d'.calls[i] == d.calls[i].(status := CallFailed, failure := Some(failure)))
  {
    var op := Close(reason, failure);
    CloseKeeps(d, op);
    CloseEnds(d, k, reason, failure);
    hide Shape, Evolves, DecideClose, OpenAt;
  }

  lemma CloseEnds(d: Record, k: nat, reason: CloseReason, failure: Failure)
    requires d.closeReason.None? && OpenAt(d, k)
    ensures DecideClose(d, reason, failure).Write?
    ensures var d' := DecideClose(d, reason, failure).next;
            && d'.status == Failed && |d'.calls| == |d.calls| && d'.calls[..k] == d.calls[..k]
            && forall i :: k <= i < |d.calls| ==>
              d'.calls[i] == d.calls[i].(status := CallFailed, failure := Some(failure))
  {
  }

  /** Closing a failed delegation again touches no call: under the same reason it does nothing, under another it only
      overwrites why the delegation was closed. */
  lemma CloseAgain(d: Record, reason: CloseReason, failure: Failure)
    requires Shape(d) && d.status == Failed
    ensures DecideClose(d, reason, failure) ==
            if d.closeReason == Some(reason) then NoWrite
            else Write(d.(closeReason := Some(reason), failure := Some(failure)))
  {
    if d.closeReason != Some(reason) {
      assert DecideClose(d, reason, failure).next.calls == d.calls;
    }
  }

  /** The delegation is open or about to be, and has room for one more call with this input. */
  predicate Takes(d: Record, input: string) {
    (d.status == Open || d.status == CreatingChild) && Admits(d.maxInputBytes, input)
    && QueuedCount(d.calls) < d.maxQueuedCalls
  }

  lemma TakesOrRefuses(d: Record, op: Op)
    requires op.Append?
    ensures Decide(op, d).Write? <==> Takes(d, op.input)
  {
  }

  /** An append is accepted exactly by a live delegation with room for an admissible input, and puts one queued call
      at the end under the next number. */
  lemma AppendExactly(d: Record, callId: string, turnSeq: nat, requestId: string, input: string)
    requires Shape(d)
    ensures var decision := DecideAppend(d, callId, turnSeq, requestId, input);
            && (decision.Write? <==>
                  IsLive(d) && Admits(d.maxInputBytes, input) && QueuedCount(d.calls) < d.maxQueuedCalls)
            && !decision.NoWrite?
            && (decision.Write? ==>
                  && |decision.next.calls| == |d.calls| + 1 && decision.next.calls[..|d.calls|] == d.calls
                  && decision.next.calls[|d.calls|] == NewCall(callId, |d.calls| + 1, turnSeq, requestId, input))
  {
    hide QueuedCount, Admits;
  }

  /** Call `i` carried the command, had not ended and was not accepted; in `d'` it is, and nothing else differs. */
  predicate MarksAccepted(d: Record, d': Record, i: nat, commandEventId: string, turnSeq: nat)
    requires i < |d.calls|
  {
    && CarriesCommand(d.calls[i], commandEventId, turnSeq)
    && !IsTerminal(d.calls[i].status) && !d.calls[i].dispatch.value.accepted
    && d' == d.(calls := d.calls[i := d.calls[i].(dispatch := Some(d.calls[i].dispatch.value.(accepted := true)))])
  }

  /** The first call that carries the command for that turn. */
  ghost predicate FirstCarrier(d: Record, i: nat, commandEventId: string, turnSeq: nat) {
    && i < |d.calls| && CarriesCommand(d.calls[i], commandEventId, turnSeq)
    && forall j :: 0 <= j < i ==> !CarriesCommand(d.calls[j], commandEventId, turnSeq)
  }

  /** An acknowledgement is rejected exactly if no call carries the command for that turn; otherwise it marks the first
      such call, exactly unless that call is accepted already or has ended. */
  lemma AcknowledgeExactly(d: Record, commandEventId: string, turnSeq: nat)
    requires Shape(d)
    ensures var decision := DecideAcknowledge(d, commandEventId, turnSeq);
            && (decision.Reject? <==> forall i :: 0 <= i < |d.calls| ==>
                  !CarriesCommand(d.calls[i], commandEventId, turnSeq))
            && forall i: nat :: FirstCarrier(d, i, commandEventId, turnSeq) ==>
                 if d.calls[i].dispatch.value.accepted || IsTerminal(d.calls[i].status) then decision.NoWrite?
                 else decision.Write? && MarksAccepted(d, decision.next, i, commandEventId, turnSeq)
  {
    var i := CommandIndex(d, commandEventId, turnSeq);
    assert forall j: nat :: FirstCarrier(d, j, commandEventId, turnSeq) ==> j == i;
    if i < |d.calls| {
      assert CarriesCommand(d.calls[i], commandEventId, turnSeq);
      ReplaceAt(d.calls, i, d.calls[i].(dispatch := Some(d.calls[i].dispatch.value.(accepted := true))));
    }
    hide Shape;
  }

  predicate CarriesCommand(c: Call, commandEventId: string, turnSeq: nat) {
    c.dispatch.Some? && c.dispatch.value.commandEventId == commandEventId && c.dispatch.value.childTurnSeq == turnSeq
  }

  predicate HasAwait(c: Call, requestId: string) {
    exists j :: 0 <= j < |c.awaits| && c.awaits[j].requestId == requestId
  }

  /** An await is registered exactly by the delegation's own parent and once per request id. */
  lemma RegisterAwaitExactly(d: Record, i: nat, requestId: string, parentSessionId: string, turnSeq: nat)
    requires Shape(d) && i < |d.calls|
    ensures var decision := DecideRegisterAwait(d, d.calls[i].callId, requestId, parentSessionId, turnSeq);
            && (decision.Reject? <==> d.parentSessionId != parentSessionId)
            && (decision.NoWrite? <==> d.parentSessionId == parentSessionId && HasAwait(d.calls[i], requestId))
            && (decision.Write? ==> decision.next == d.(calls := d.calls[i := d.calls[i].(
                  awaits := d.calls[i].awaits + [AwaitRequest(requestId, parentSessionId, turnSeq, false)])]))
  {
    assert IndexOfCall(d.calls, d.calls[i].callId) == i;
    ReplaceAt(d.calls, i,
              d.calls[i].(awaits := d.calls[i].awaits + [AwaitRequest(requestId, parentSessionId, turnSeq, false)]));
    hide Shape;
  }

  /** Marking an await answered flips exactly the pending request of that id in that call, whenever there is one. */
  lemma MarkRespondedExactly(d: Record, i: nat, requestId: string)
    requires Shape(d) && i < |d.calls|
    ensures var decision, awaits := DecideMarkResponded(d, d.calls[i].callId, requestId), d.calls[i].awaits;
            && !decision.Reject?
            && (decision.NoWrite? <==> forall j :: 0 <= j < |awaits| && awaits[j].requestId == requestId ==>
                  awaits[j].responded)
            && forall j :: 0 <= j < |awaits| && awaits[j].requestId == requestId && !awaits[j].responded ==>
                 var answered := awaits[j := awaits[j].(responded := true)];
                 decision == Write(d.(calls := d.calls[i := d.calls[i].(awaits := answered)]))
  {
    assert IndexOfCall(d.calls, d.calls[i].callId) == i;
    var awaits := d.calls[i].awaits;
    ReplaceAt(d.calls, i, d.calls[i].(awaits := Responded(awaits, requestId)));
    assert DistinctAwaits(awaits) by {
      assert CallShape(d.calls[i]);
    }
    hide Shape, ReplaceCall;
    forall j | 0 <= j < |awaits| && awaits[j].requestId == requestId
      ensures Responded(awaits, requestId) == awaits[j := awaits[j].(responded := true)]
    {
    }
  }

  lemma IndexStays(d: Record, d': Record, callId: string)
    requires |d'.calls| == |d.calls| && forall i :: 0 <= i < |d.calls| ==> d'.calls[i].callId == d.calls[i].callId
    ensures IndexOfCall(d'.calls, callId) == IndexOfCall(d.calls, callId)
  {
  }

  lemma AcknowledgedIsFound(d: Record, op: Op)
    requires op.Acknowledge? && Shape(d) && Decide(op, d).Write?
    ensures var d', i := Decide(op, d).next, CommandIndex(d, op.commandEventId, op.turnSeq);
            && CommandIndex(d', op.commandEventId, op.turnSeq) == i < |d'.calls|
            && d'.calls[i].dispatch.value.accepted
  {
    var i := CommandIndex(d, op.commandEventId, op.turnSeq);
    var c := d.calls[i].(dispatch := Some(d.calls[i].dispatch.value.(accepted := true)));
    ReplaceAt(d.calls, i, c);
    hide Shape;
    assert Decide(op, d).next.calls == d.calls[i := c];
  }

  lemma ActivatedIsFound(d: Record, op: Op)
    requires op.Activate? && Shape(d) && Decide(op, d).Write?
    ensures ActiveIndex(Decide(op, d).next) < |Decide(op, d).next.calls|
  {
    var d' := Decide(op, d).next;
    ActivateKeeps(d, op);
    hide Decide, CallShape, QueuedCount, Evolves, CallEvolves;
    assert d'.status == Open && d'.activeCallId.Some? by {
      ActivateOpens(d, op);
    }
    var k: nat :| OpenAt(d', k);
    ActiveIsIndexed(d', k);
  }

  lemma ActivateOpens(d: Record, op: Op)
    requires op.Activate? && Decide(op, d).Write?
    ensures Decide(op, d).next.status == Open && Decide(op, d).next.activeCallId.Some?
  {
  }

  lemma RepeatedAwait(d: Record, op: Op)
    requires op.RegisterAwait? && Shape(d) && Decide(op, d).Write?
    ensures !Decide(op, Decide(op, d).next).Write?
  {
    var i := IndexOfCall(d.calls, op.callId);
    var added := AwaitRequest(op.requestId, op.parentSessionId, op.turnSeq, false);
    var c := d.calls[i].(awaits := d.calls[i].awaits + [added]);
    ReplaceAt(d.calls, i, c);
    IndexStays(d, Decide(op, d).next, op.callId);
    hide Shape;
    assert c.awaits[|c.awaits| - 1].requestId == op.requestId;
  }

  lemma RepeatedAnswer(d: Record, op: Op)
    requires op.MarkResponded? && Shape(d) && Decide(op, d).Write?
    ensures !Decide(op, Decide(op, d).next).Write?
  {
    var i := IndexOfCall(d.calls, op.callId);
    ReplaceAt(d.calls, i, d.calls[i].(awaits := Responded(d.calls[i].awaits, op.requestId)));
    IndexStays(d, Decide(op, d).next, op.callId);
    hide Shape;
  }

  /** Every operation but an append is idempotent: repeating it on the record it wrote writes nothing. */
  lemma RepeatWritesNothing(d: Record, op: Op)
    requires Shape(d) && !op.Append? && Decide(op, d).Write?
    ensures !Decide(op, Decide(op, d).next).Write?
  {
    match op
    case Activate(_, _, _) => ActivatedIsFound(d, op); hide Shape;
    case Acknowledge(_, _) => AcknowledgedIsFound(d, op); hide Shape;
    case RegisterAwait(_, _, _, _) => RepeatedAwait(d, op);
    case MarkResponded(_, _) => RepeatedAnswer(d, op);
    case _ => hide Shape;
  }

  lemma NewDelegationShape(d: Record, callId: string, turnSeq: nat, requestId: string, input: string)
    requires d == NewDelegation(d.parentSessionId, d.delegateId, d.targetRef, d.childSessionId, d.maxQueuedCalls,
                                d.maxInputBytes, d.maxResultBytes, NewCall(callId, 1, turnSeq, requestId, input))
    requires d.maxQueuedCalls >= 1
    ensures Shape(d)
  {
    assert QueuedCount(d.calls) <= |d.calls|;
  }
}
