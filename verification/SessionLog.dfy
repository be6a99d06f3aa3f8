/** A session's event log in central. Storing an event is two durable writes, the log entry and then the session's
    cursor and status; a redelivered event repairs a crash between the two. */
module SessionLog {
  import opened Basics

  datatype Status = Queued | Running | Paused | Failed | Closed

  /** An event as a worker sends it. `payload` is its JSON text. */
  datatype Incoming = Incoming(eventId: string, kind: string, turnSeq: Option<nat>, payload: string,
                               leaseId: Option<string>)

  datatype LogEntry = LogEntry(eventId: string, kind: string, turnSeq: Option<nat>, payload: string, sequence: nat)

  datatype Session = Session(status: Status, reason: Option<string>, cursor: nat, leaseId: Option<string>)

  datatype Options = Options(assertLease: bool, status: Option<Status>, reason: Option<string>)

  datatype State = State(log: seq<LogEntry>, session: Session)

  datatype Outcome = Threw | Accepted(entry: LogEntry, duplicate: bool, current: bool, published: bool)

  // ---------- One delivery ----------

  function IndexOfEvent(log: seq<LogEntry>, eventId: string): (i: nat)
    ensures i <= |log| && (i < |log| ==> log[i].eventId == eventId)
    ensures forall j :: 0 <= j < i ==> log[j].eventId != eventId
  {
    FirstIndex(log, (e: LogEntry) => e.eventId == eventId)
  }

  predicate Conflicts(e: LogEntry, event: Incoming) {
    e.kind != event.kind || e.turnSeq != event.turnSeq || e.payload != event.payload
  }

  predicate LeaseHolds(s: Session, event: Incoming) {
    event.leaseId.Some? && s.leaseId == event.leaseId
  }

  /** `transitionAfterEvent` when a status comes with the event, else `advanceEventCursor`. */
  function Advance(s: Session, options: Options, sequence: nat): Session {
    if options.status.Some? then s.(status := options.status.value, reason := options.reason, cursor := sequence)
    else s.(cursor := sequence)
  }

  function NewEntry(s: Session, event: Incoming): LogEntry {
    LogEntry(event.eventId, event.kind, event.turnSeq, event.payload, s.cursor + 1)
  }

  /** The session after a redelivery of a stored event. */
  function Repair(s: Session, e: LogEntry, options: Options): Session {
    if s.cursor < e.sequence then Advance(s, options, e.sequence)
    else if s.cursor == e.sequence && options.status.Some?
            && (s.status != options.status.value || s.reason != options.reason)
      then Advance(s, options, e.sequence)
    else s
  }

  /** A delivery that is not interrupted. */
  function Deliver(st: State, event: Incoming, options: Options): (State, Outcome) {
    var i := IndexOfEvent(st.log, event.eventId);
    if i < |st.log| then
      var e := st.log[i];
      if Conflicts(e, event) then (st, Threw)
      else
        (st.(session := Repair(st.session, e, options)),
         Accepted(e, true, e.sequence >= st.session.cursor,
                  st.session.cursor < e.sequence || (st.session.cursor == e.sequence && options.status.Some?)))
    else if options.assertLease && !LeaseHolds(st.session, event) then (st, Threw)
    else
      var e := NewEntry(st.session, event);
      (State(st.log + [e], Advance(st.session, options, e.sequence)), Accepted(e, false, true, true))
  }

  /** A delivery that dies after its first durable write: a new event is in the log, the session does not know. A
      redelivery has only the session to write, so dying after that write is not dying at all. */
  function DiesAfterAppend(st: State, event: Incoming, options: Options): State {
    if IndexOfEvent(st.log, event.eventId) == |st.log| && (options.assertLease ==> LeaseHolds(st.session, event))
    then st.(log := st.log + [NewEntry(st.session, event)])
    else Deliver(st, event, options).0
  }

  /** The stored session and log, and how many more durable writes happen before the process dies. */
  class EventStore {
    var log: seq<LogEntry>
    var session: Session
    var fuel: nat

    constructor (session: Session)
      ensures log == [] && this.session == session && fuel == 0
    {
      log, this.session, fuel := [], session, 0;
    }

    function Value(): State
      reads this
    {
      State(log, session)
    }

    /** `appendSessionEventOnce`. */
    method AppendSessionEventOnce(event: Incoming, options: Options) returns (outcome: Option<Outcome>)
      modifies this
      ensures outcome.Some? ==> (Value(), outcome.value) == Deliver(old(Value()), event, options)
      ensures outcome.None? ==>
                fuel == 0 && (Value() == old(Value()) || Value() == DiesAfterAppend(old(Value()), event, options))
      ensures old(fuel) >= 2 ==> outcome.Some?
      ensures fuel <= old(fuel) <= fuel + 2
    {
      var i := IndexOfEvent(log, event.eventId);
      if i < |log| {
        var existing := log[i];
        if Conflicts(existing, event) {
          return Some(Threw);
        }
        var current := existing.sequence >= session.cursor;
        var published := false;
        if session.cursor < existing.sequence {
          var ok := WriteSession(Advance(session, options, existing.sequence));
          if !ok {
            return None;
          }
          published := true;
        } else if session.cursor == existing.sequence && options.status.Some? {
          if session.status != options.status.value || session.reason != options.reason {
            var ok := WriteSession(Advance(session, options, existing.sequence));
            if !ok {
              return None;
            }
          }
          published := true;
        }
        return Some(Accepted(existing, true, current, published));
      }
      if options.assertLease && !LeaseHolds(session, event) {
        return Some(Threw);
      }
      if fuel == 0 {
        return None;
      }
      var appended := NewEntry(session, event);
      log := log + [appended];
      fuel := fuel - 1;
      var ok := WriteSession(Advance(session, options, appended.sequence));
      if !ok {
        return None;
      }
      return Some(Accepted(appended, false, true, true));
    }

    method WriteSession(next: Session) returns (ok: bool)
      modifies this`session, this`fuel
      ensures ok <==> old(fuel) > 0
      ensures ok ==> session == next && fuel == old(fuel) - 1
      ensures !ok ==> session == old(session) && fuel == 0
    {
      if fuel == 0 {
        return false;
      }
      session, fuel := next, fuel - 1;
      return true;
    }
  }

  // ---------- Redelivery ----------

  lemma NewEventIsLast(log: seq<LogEntry>, e: LogEntry)
    requires IndexOfEvent(log, e.eventId) == |log|
    ensures IndexOfEvent(log + [e], e.eventId) == |log|
  {
    assert (log + [e])[|log|] == e;
    assert forall j :: 0 <= j < |log| ==> (log + [e])[j] == log[j];
  }

  /** A crash between the two writes, followed by a redelivery, is as if the crash had not happened. */
  lemma RedeliveryRepairs(st: State, event: Incoming, options: Options)
    ensures Deliver(DiesAfterAppend(st, event, options), event, options).0 == Deliver(st, event, options).0
    ensures Deliver(st, event, options).1.Threw? <==>
              Deliver(DiesAfterAppend(st, event, options), event, options).1.Threw?
  {
    if IndexOfEvent(st.log, event.eventId) == |st.log| {
      NewEventIsLast(st.log, NewEntry(st.session, event));
    }
  }

  /** Delivering twice is delivering once. */
  lemma RedeliveryIsIdempotent(st: State, event: Incoming, options: Options)
    ensures Deliver(Deliver(st, event, options).0, event, options).0 == Deliver(st, event, options).0
  {
    if IndexOfEvent(st.log, event.eventId) == |st.log| {
      NewEventIsLast(st.log, NewEntry(st.session, event));
    }
  }

  /** An event id is never reused for another event: the attempt throws and changes nothing. */
  lemma ConflictChangesNothing(st: State, event: Incoming, options: Options, i: nat)
    requires i < |st.log| && st.log[i].eventId == event.eventId && UniqueIds(st.log)
    ensures Deliver(st, event, options).1.Threw? <==>
              (st.log[i].kind, st.log[i].turnSeq, st.log[i].payload) != (event.kind, event.turnSeq, event.payload)
    ensures Deliver(st, event, options).1.Threw? ==> Deliver(st, event, options).0 == st
  {
  }

  /** An event that is new is taken exactly if it carries the session's lease, when that is asked for; an event of any
      other lease is kept out and changes nothing, however far its delivery gets. */
  lemma StaleLeaseIsKeptOut(st: State, event: Incoming, options: Options)
    requires options.assertLease && forall i :: 0 <= i < |st.log| ==> st.log[i].eventId != event.eventId
    ensures var (st', outcome) := Deliver(st, event, options);
            if event.leaseId.Some? && event.leaseId == st.session.leaseId then
              outcome.Accepted? && st'.log == st.log + [NewEntry(st.session, event)]
            else
              outcome.Threw? && st' == st && DiesAfterAppend(st, event, options) == st
  {
  }

  /** Without such a demand a new event is always taken. */
  lemma NewEventIsTaken(st: State, event: Incoming, options: Options)
    requires !options.assertLease && forall i :: 0 <= i < |st.log| ==> st.log[i].eventId != event.eventId
    ensures var (st', outcome) := Deliver(st, event, options);
            && outcome == Accepted(NewEntry(st.session, event), false, true, true)
            && st'.log == st.log + [NewEntry(st.session, event)] && st'.session.cursor == st.session.cursor + 1
            && (options.status.Some? ==>
                  st'.session.status == options.status.value && st'.session.reason == options.reason)
            && (options.status.None? ==>
                  st'.session.status == st.session.status && st'.session.reason == st.session.reason)
  {
  }

  // ---------- Runs ----------

  /** `Leased` is a lease handed out by another manager, which leaves the rest of the session alone. */
  datatype Step =
    | Delivered(event: Incoming, options: Options)
    | Died(event: Incoming, options: Options)
    | Leased(leaseId: Option<string>)

  function Take(st: State, step: Step): State {
    match step
    case Delivered(event, options) => Deliver(st, event, options).0
    case Died(event, options) => DiesAfterAppend(st, event, options)
    case Leased(leaseId) => st.(session := st.session.(leaseId := leaseId))
  }

  function TakeAll(st: State, steps: seq<Step>): State {
    if steps == [] then st else Take(TakeAll(st, steps[..|steps| - 1]), steps[|steps| - 1])
  }

  function Deaths(steps: seq<Step>): nat {
    CountIf(steps, (s: Step) => s.Died?)
  }

  predicate UniqueIds(log: seq<LogEntry>) {
    forall i, j :: 0 <= i < j < |log| ==> log[i].eventId != log[j].eventId
  }

  /** Entries never run ahead of the cursor by more than one, nor of their own position, and their sequences never
      fall. */
  predicate Ordered(log: seq<LogEntry>, cursor: nat) {
    && (forall i :: 0 <= i < |log| ==> 1 <= log[i].sequence <= cursor + 1 && log[i].sequence <= i + 1)
    && (forall i, j :: 0 <= i < j < |log| ==> log[i].sequence <= log[j].sequence)
  }

  predicate Inv(st: State, deaths: nat) {
    && UniqueIds(st.log) && Ordered(st.log, st.session.cursor)
    && st.session.cursor <= |st.log| <= st.session.cursor + deaths
  }

  lemma AppendKeeps(st: State, event: Incoming)
    requires UniqueIds(st.log) && Ordered(st.log, st.session.cursor) && IndexOfEvent(st.log, event.eventId) == |st.log|
    requires st.session.cursor <= |st.log|
    ensures var log := st.log + [NewEntry(st.session, event)];
            UniqueIds(log) && Ordered(log, st.session.cursor) && Ordered(log, st.session.cursor + 1)
  {
  }

  /** What a step can do: nothing to log or cursor, raise the cursor to a stored entry, or append one entry. */
  lemma StepForms(st: State, step: Step)
    requires !step.Leased?
    ensures var i, st' := IndexOfEvent(st.log, step.event.eventId), Take(st, step);
            || (st'.log == st.log && st'.session.cursor == st.session.cursor)
            || (i < |st.log| && st'.log == st.log && st.session.cursor < st'.session.cursor == st.log[i].sequence)
            || (i == |st.log| && st'.log == st.log + [NewEntry(st.session, step.event)]
                && st'.session.cursor == st.session.cursor + if step.Died? then 0 else 1)
  {
  }

  lemma StepKeeps(st: State, step: Step, deaths: nat)
    requires Inv(st, deaths)
    ensures Inv(Take(st, step), deaths + if step.Died? then 1 else 0)
    ensures Take(st, step).session.cursor >= st.session.cursor && st.log <= Take(st, step).log
  {
    if !step.Leased? {
      StepForms(st, step);
      hide Take;
      var i := IndexOfEvent(st.log, step.event.eventId);
      if i == |st.log| {
        AppendKeeps(st, step.event);
        hide UniqueIds, Ordered, IndexOfEvent;
      } else {
        assert st.session.cursor < st.log[i].sequence ==>
                 st.log[i].sequence == st.session.cursor + 1 <= |st.log| && Ordered(st.log, st.log[i].sequence);
        hide UniqueIds, Ordered, IndexOfEvent;
      }
    }
  }

  /** However deliveries die and repeat: event ids stay unique, the log only grows, and the cursor never decreases and
      trails the log by at most one entry per death. */
  lemma {:induction false} RunKeeps(session: Session, steps: seq<Step>, n: nat)
    requires n <= |steps| && session.cursor == 0
    ensures Inv(TakeAll(State([], session), steps), Deaths(steps))
    ensures var early, late := TakeAll(State([], session), steps[..n]), TakeAll(State([], session), steps);
            early.log <= late.log && early.session.cursor <= late.session.cursor
    decreases |steps|
  {
    if steps == [] {
      assert steps[..n] == [];
    } else {
      var front := steps[..|steps| - 1];
      RunKeeps(session, front, if n == |steps| then n - 1 else n);
      StepKeeps(TakeAll(State([], session), front), steps[|steps| - 1], Deaths(front));
      if n == |steps| {
        assert steps[..n] == steps;
      } else {
        assert front[..n] == steps[..n];
      }
    }
  }

  /** Without a death the log's sequences are exactly 1, 2, ..., cursor. */
  lemma {:induction false} CrashFreeSequences(session: Session, steps: seq<Step>)
    requires session.cursor == 0 && Deaths(steps) == 0
    ensures var st := TakeAll(State([], session), steps);
            |st.log| == st.session.cursor && forall i :: 0 <= i < |st.log| ==> st.log[i].sequence == i + 1
    decreases |steps|
  {
    if steps != [] {
      var front := steps[..|steps| - 1];
      CrashFreeSequences(session, front);
    }
  }

  /** Exactly when a redelivery leaves the session alone: once the cursor is past the entry, or is at it with the
      event's own status in place. */
  lemma RedeliveryIsSilentIff(st: State, event: Incoming, options: Options, i: nat)
    requires UniqueIds(st.log) && i < |st.log| && st.log[i].eventId == event.eventId && !Conflicts(st.log[i], event)
    ensures Deliver(st, event, options).0 == st <==>
              || st.session.cursor > st.log[i].sequence
              || (st.session.cursor == st.log[i].sequence && (options.status.Some? ==>
                    st.session.status == options.status.value && st.session.reason == options.reason))
  {
    assert IndexOfEvent(st.log, event.eventId) == i;
  }

  // ---------- A repair that comes late ----------

  predicate HasEvent(log: seq<LogEntry>, eventId: string) {
    exists i :: 0 <= i < |log| && log[i].eventId == eventId
  }

  predicate NoneAhead(st: State) {
    forall i :: 0 <= i < |st.log| ==> st.log[i].sequence <= st.session.cursor
  }

  /** `first` is new, and its lease is in order if it is asserted. */
  predicate IsAppendable(st: State, event: Incoming, options: Options) {
    !HasEvent(st.log, event.eventId) && (options.assertLease ==> LeaseHolds(st.session, event))
  }

  /** Any steps but those of `first`: other events delivered or dying, and lease changes. */
  predicate AreOthers(between: seq<Step>, first: Incoming) {
    forall i :: 0 <= i < |between| && !between[i].Leased? ==> between[i].event.eventId != first.eventId
  }

  function LeaseAfter(leaseId: Option<string>, steps: seq<Step>): Option<string> {
    if steps == [] then leaseId
    else if steps[|steps| - 1].Leased? then steps[|steps| - 1].leaseId
    else LeaseAfter(leaseId, steps[..|steps| - 1])
  }

  /** `st` under the lease that holds after these steps. */
  function UnderLease(st: State, steps: seq<Step>): State {
    st.(session := st.session.(leaseId := LeaseAfter(st.session.leaseId, steps)))
  }

  /** No step brings an event that is new to `st` and whose lease, if asserted, holds by then. */
  predicate AppendsNothing(st: State, steps: seq<Step>) {
    forall i :: 0 <= i < |steps| && !steps[i].Leased? ==>
      !IsAppendable(UnderLease(st, steps[..i]), steps[i].event, steps[i].options)
  }

  /** The step redelivers the event at the cursor, with a status. */
  predicate Restates(st: State, step: Step) {
    && !step.Leased? && step.options.status.Some?
    && var i := IndexOfEvent(st.log, step.event.eventId);
       i < |st.log| && !Conflicts(st.log[i], step.event) && st.log[i].sequence == st.session.cursor
  }

  /** The status and reason that the last such step brings, or those of `st`. */
  function StatusAfter(st: State, steps: seq<Step>): (Status, Option<string>) {
    if steps == [] then (st.session.status, st.session.reason)
    else
      var last := steps[|steps| - 1];
      if Restates(st, last) then (last.options.status.value, last.options.reason)
      else StatusAfter(st, steps[..|steps| - 1])
  }

  lemma FoundIffHad(log: seq<LogEntry>, eventId: string)
    ensures HasEvent(log, eventId) <==> IndexOfEvent(log, eventId) < |log|
  {
  }

  lemma HasAppended(log: seq<LogEntry>, e: LogEntry)
    ensures forall id :: HasEvent(log + [e], id) <==> HasEvent(log, id) || id == e.eventId
  {
    assert (log + [e])[|log|] == e;
    forall id | HasEvent(log, id) ensures HasEvent(log + [e], id) {
      var i :| 0 <= i < |log| && log[i].eventId == id;
      assert (log + [e])[i] == log[i];
    }
  }

  /** A delivery appends one entry under the next sequence, or leaves log, lease and, when no entry is ahead of it, the
      cursor as they are. */
  lemma DeliverForms(st: State, event: Incoming, options: Options)
    ensures var st' := Deliver(st, event, options).0;
            && st'.session.leaseId == st.session.leaseId
            && if IsAppendable(st, event, options) then
                 st' == State(st.log + [NewEntry(st.session, event)],
                              Advance(st.session, options, st.session.cursor + 1))
               else
                 st'.log == st.log && (NoneAhead(st) ==> st'.session.cursor == st.session.cursor)
  {
    FoundIffHad(st.log, event.eventId);
  }

  /** Nothing is repaired while the cursor is beyond the entry. */
  lemma PastIsSilent(st: State, event: Incoming, options: Options)
    requires !IsAppendable(st, event, options)
    requires forall i :: 0 <= i < |st.log| && st.log[i].eventId == event.eventId ==>
               st.log[i].sequence < st.session.cursor
    ensures Deliver(st, event, options).0 == st
  {
    FoundIffHad(st.log, event.eventId);
  }

  /** Another entry at the end, under another id, changes nothing for an event. */
  lemma OtherEntryIsIgnored(log: seq<LogEntry>, session: Session, e: LogEntry, event: Incoming, options: Options)
    requires e.eventId != event.eventId && !IsAppendable(State(log, session), event, options)
    ensures Deliver(State(log + [e], session), event, options).0 ==
            State(log + [e], Deliver(State(log, session), event, options).0.session)
  {
    FoundIffHad(log, event.eventId);
    FoundIffHad(log + [e], event.eventId);
    HasAppended(log, e);
    var i, j := IndexOfEvent(log, event.eventId), IndexOfEvent(log + [e], event.eventId);
    if i < |log| {
      assert (log + [e])[i] == log[i];
      assert forall k :: 0 <= k < |log| ==> (log + [e])[k] == log[k];
      assert j == i;
    }
  }

  /** The log after a step: one entry more exactly if its event is appendable. */
  lemma LogAfter(st: State, step: Step)
    requires !step.Leased?
    ensures Take(st, step).session.leaseId == st.session.leaseId
    ensures Take(st, step).log ==
            if IsAppendable(st, step.event, step.options) then st.log + [NewEntry(st.session, step.event)] else st.log
    ensures !IsAppendable(st, step.event, step.options) ==> Take(st, step) == Deliver(st, step.event, step.options).0
  {
    FoundIffHad(st.log, step.event.eventId);
  }

  lemma RestatedOrKept(st: State, step: Step)
    requires NoneAhead(st) && !step.Leased? && !IsAppendable(st, step.event, step.options)
    ensures Take(st, step) ==
            if Restates(st, step) then
              st.(session := st.session.(status := step.options.status.value, reason := step.options.reason))
            else st
  {
    FoundIffHad(st.log, step.event.eventId);
  }

  lemma AppendsNothingStep(st: State, steps: seq<Step>)
    requires steps != []
    ensures var front, last := steps[..|steps| - 1], steps[|steps| - 1];
            AppendsNothing(st, steps) <==>
              AppendsNothing(st, front)
              && (last.Leased? || !IsAppendable(UnderLease(st, front), last.event, last.options))
  {
    hide IsAppendable;
    var front := steps[..|steps| - 1];
    assert forall i :: 0 <= i < |front| ==> front[..i] == steps[..i];
  }

  /** Steps that append nothing leave log and cursor; the lease and the status are those the last steps bring. */
  lemma {:induction false} QuietForms(st: State, steps: seq<Step>)
    requires NoneAhead(st)
    ensures var x := TakeAll(st, steps);
            && x.session.leaseId == LeaseAfter(st.session.leaseId, steps) && st.log <= x.log
            && (x.log == st.log <==> AppendsNothing(st, steps))
            && (AppendsNothing(st, steps) ==>
                  x.session == Session(StatusAfter(st, steps).0, StatusAfter(st, steps).1, st.session.cursor,
                                       LeaseAfter(st.session.leaseId, steps)))
    decreases |steps|
  {
    if steps != [] {
      var front, last := steps[..|steps| - 1], steps[|steps| - 1];
      QuietForms(st, front);
      AppendsNothingStep(st, steps);
      var x := TakeAll(st, front);
      if !last.Leased? {
        LogAfter(x, last);
        if AppendsNothing(st, front) {
          assert HasEvent(x.log, last.event.eventId) == HasEvent(UnderLease(st, front).log, last.event.eventId);
          assert IsAppendable(x, last.event, last.options)
                 == IsAppendable(UnderLease(st, front), last.event, last.options);
          hide HasEvent, AppendsNothing, LeaseHolds;
          if !IsAppendable(x, last.event, last.options) {
            RestatedOrKept(x, last);
            assert Restates(x, last) == Restates(st, last);
          }
        }
      }
    }
  }

  /** While nothing is appended, the run with `first` left half stored is the run without it but for the entry, and the
      clean run has only its lease changed. */
  lemma {:induction false} QuietRuns(st: State, first: Incoming, options: Options, steps: seq<Step>)
    requires NoneAhead(st) && IsAppendable(st, first, options) && AreOthers(steps, first) && AppendsNothing(st, steps)
    ensures var e := NewEntry(st.session, first);
            && TakeAll(DiesAfterAppend(st, first, options), steps) == State(st.log + [e], TakeAll(st, steps).session)
            && TakeAll(Deliver(st, first, options).0, steps)
               == State(st.log + [e], Advance(UnderLease(st, steps).session, options, e.sequence))
    decreases |steps|
  {
    var e := NewEntry(st.session, first);
    FoundIffHad(st.log, first.eventId);
    if steps != [] {
      var front, last := steps[..|steps| - 1], steps[|steps| - 1];
      AppendsNothingStep(st, steps);
      QuietRuns(st, first, options, front);
      QuietForms(st, front);
      if !last.Leased? {
        var x, clean := TakeAll(st, front), Advance(UnderLease(st, front).session, options, e.sequence);
        QuietStep(st, first, x.session, clean, last);
      }
    }
  }

  lemma QuietStep(st: State, first: Incoming, x: Session, clean: Session, step: Step)
    requires NoneAhead(st) && !step.Leased? && step.event.eventId != first.eventId
    requires x.leaseId == clean.leaseId && clean.cursor == st.session.cursor + 1
    requires !IsAppendable(State(st.log, x), step.event, step.options)
    ensures var log := st.log + [NewEntry(st.session, first)];
            && Take(State(log, x), step) == State(log, Take(State(st.log, x), step).session)
            && Take(State(log, clean), step) == State(log, clean)
  {
    var e := NewEntry(st.session, first);
    HasAppended(st.log, e);
    LogAfter(State(st.log, x), step);
    LogAfter(State(st.log + [e], x), step);
    LogAfter(State(st.log + [e], clean), step);
    OtherEntryIsIgnored(st.log, x, e, step.event, step.options);
    PastIsSilent(State(st.log + [e], clean), step.event, step.options);
  }

  /** Three runs over the same steps: `x` without `first`, `late` with `first` left half stored, `clean` with it
      delivered. Behind the entry of `first` the late run numbers everything one lower, and so it stands with the
      cursor. */
  ghost predicate Shifted(st: State, first: Incoming, x: State, late: State, clean: State) {
    var n, e := |st.log|, NewEntry(st.session, first);
    && |late.log| == |clean.log| == |x.log| + 1 && st.log <= x.log
    && st.log + [e] <= late.log && st.log + [e] <= clean.log
    && (forall i :: n < i < |late.log| ==>
          && clean.log[i] == late.log[i].(sequence := late.log[i].sequence + 1)
          && x.log[i - 1].eventId == late.log[i].eventId)
    && x.session.leaseId == late.session.leaseId == clean.session.leaseId
    && st.session.cursor <= late.session.cursor && clean.session.cursor == late.session.cursor + 1
  }

  lemma ShiftedBegins(st: State, first: Incoming, options: Options)
    requires IsAppendable(st, first, options)
    ensures Shifted(st, first, st, DiesAfterAppend(st, first, options), Deliver(st, first, options).0)
  {
    FoundIffHad(st.log, first.eventId);
    hide HasEvent;
  }

  /** Every other event is at one place in the late and in the clean log. */
  lemma PlacedAlike(st: State, first: Incoming, x: State, late: State, clean: State, eventId: string)
    requires Shifted(st, first, x, late, clean) && eventId != first.eventId
    ensures var i := IndexOfEvent(late.log, eventId);
            && i == IndexOfEvent(clean.log, eventId) != |st.log|
            && (i < |st.log| ==> st.log[i] == late.log[i] == clean.log[i])
            && (|st.log| < i < |late.log| ==> clean.log[i] == late.log[i].(sequence := late.log[i].sequence + 1))
  {
    var n, log := |st.log|, st.log + [NewEntry(st.session, first)];
    assert late.log[n] == log[n] == clean.log[n];
    assert forall i :: 0 <= i < n ==> late.log[i] == log[i] == clean.log[i] == st.log[i];
    assert forall i :: 0 <= i < |late.log| ==> late.log[i].eventId == clean.log[i].eventId;
  }

  /** No run has another event that the others have not. */
  lemma HadAlike(st: State, first: Incoming, x: State, late: State, clean: State, eventId: string)
    requires Shifted(st, first, x, late, clean) && eventId != first.eventId
    ensures HasEvent(x.log, eventId) == HasEvent(late.log, eventId) == HasEvent(clean.log, eventId)
  {
    PlacedAlike(st, first, x, late, clean, eventId);
    FoundIffHad(late.log, eventId);
    FoundIffHad(clean.log, eventId);
    hide IndexOfEvent;
    var n, log := |st.log|, st.log + [NewEntry(st.session, first)];
    assert late.log[n] == log[n];
    assert forall i :: 0 <= i < n ==> late.log[i] == log[i] == st.log[i] == x.log[i];
    if HasEvent(x.log, eventId) {
      var i :| 0 <= i < |x.log| && x.log[i].eventId == eventId;
      assert late.log[if i < n then i else i + 1].eventId == eventId;
    }
    if HasEvent(late.log, eventId) {
      var i :| 0 <= i < |late.log| && late.log[i].eventId == eventId;
      assert x.log[if i < n then i else i - 1].eventId == eventId;
    }
  }

  lemma ShiftedGoesOn(st: State, first: Incoming, x: State, late: State, clean: State, step: Step)
    requires NoneAhead(st) && Shifted(st, first, x, late, clean)
    requires !step.Leased? && step.event.eventId != first.eventId
    ensures Shifted(st, first, Take(x, step), Take(late, step), Take(clean, step))
  {
    HadAlike(st, first, x, late, clean, step.event.eventId);
    LogAfter(x, step);
    LogAfter(late, step);
    LogAfter(clean, step);
    PlacedAlike(st, first, x, late, clean, step.event.eventId);
    CursorsAlike(late, clean, step);
    hide Take, HasEvent, LeaseHolds;
    assert IsAppendable(x, step.event, step.options) == IsAppendable(late, step.event, step.options)
           == IsAppendable(clean, step.event, step.options);
  }

  /** A step whose event stands one higher in `clean`, or behind the cursor in both, moves both cursors alike. */
  lemma CursorsAlike(late: State, clean: State, step: Step)
    requires !step.Leased? && late.session.leaseId == clean.session.leaseId && |late.log| == |clean.log|
    requires clean.session.cursor == late.session.cursor + 1
    requires IndexOfEvent(late.log, step.event.eventId) == IndexOfEvent(clean.log, step.event.eventId)
    requires var i := IndexOfEvent(late.log, step.event.eventId);
             i < |late.log| ==>
               || (clean.log[i] == late.log[i] && late.log[i].sequence <= late.session.cursor)
               || clean.log[i] == late.log[i].(sequence := late.log[i].sequence + 1)
    ensures Take(late, step).session.cursor >= late.session.cursor
    ensures Take(clean, step).session.cursor == Take(late, step).session.cursor + 1
  {
    hide IndexOfEvent;
  }

  lemma {:induction false} ShiftedThroughout(st: State, first: Incoming, options: Options, steps: seq<Step>)
    requires NoneAhead(st) && IsAppendable(st, first, options) && AreOthers(steps, first)
    ensures Shifted(st, first, TakeAll(st, steps), TakeAll(DiesAfterAppend(st, first, options), steps),
                    TakeAll(Deliver(st, first, options).0, steps))
    decreases |steps|
  {
    if steps == [] {
      ShiftedBegins(st, first, options);
    } else {
      var front, last := steps[..|steps| - 1], steps[|steps| - 1];
      hide IsAppendable, Deliver, DiesAfterAppend;
      ShiftedThroughout(st, first, options, front);
      if !last.Leased? {
        ShiftedGoesOn(st, first, TakeAll(st, front), TakeAll(DiesAfterAppend(st, first, options), front),
                      TakeAll(Deliver(st, first, options).0, front), last);
      }
    }
  }

  /** Without deaths the cursor goes up with every entry. */
  lemma {:induction false} CursorFollowsLog(st: State, steps: seq<Step>)
    requires NoneAhead(st) && Deaths(steps) == 0
    ensures var x := TakeAll(st, steps);
            NoneAhead(x) && x.session.cursor - st.session.cursor == |x.log| - |st.log|
    decreases |steps|
  {
    if steps != [] {
      var front, last := steps[..|steps| - 1], steps[|steps| - 1];
      CursorFollowsLog(st, front);
      if !last.Leased? {
        DeliverForms(TakeAll(st, front), last.event, last.options);
        hide IsAppendable;
      }
    }
  }

  /** The stored event's place in the late run. */
  lemma FindsFirst(st: State, first: Incoming, late: State)
    requires !HasEvent(st.log, first.eventId) && st.log + [NewEntry(st.session, first)] <= late.log
    ensures IndexOfEvent(late.log, first.eventId) == |st.log| && late.log[|st.log|] == NewEntry(st.session, first)
  {
    var e := NewEntry(st.session, first);
    assert late.log[|st.log|] == (st.log + [e])[|st.log|] == e;
    assert forall i :: 0 <= i < |st.log| ==> late.log[i] == (st.log + [e])[i] == st.log[i];
  }

  /** What the redelivery of `first` does to the late run. */
  lemma FirstRepaired(st: State, first: Incoming, options: Options, late: State)
    requires IndexOfEvent(late.log, first.eventId) == |st.log| < |late.log|
    requires late.log[|st.log|] == NewEntry(st.session, first)
    ensures Deliver(late, first, options).0
            == late.(session := Repair(late.session, NewEntry(st.session, first), options))
  {
  }

  /** Exactly when a repair that comes after other steps still gives the crash-free session, whatever was delivered,
      died or was leased in between: if no step brought an event that could be appended, and either `first` brings a
      status of its own or the last of them to restate the status restated the one the session had. */
  lemma LateRepairIsExactIff(st: State, first: Incoming, options: Options, between: seq<Step>)
    requires NoneAhead(st) && IsAppendable(st, first, options) && AreOthers(between, first)
    ensures var late := Deliver(TakeAll(DiesAfterAppend(st, first, options), between), first, options).0;
            var clean := TakeAll(Deliver(st, first, options).0, between);
            late == clean <==>
              AppendsNothing(st, between)
              && (options.status.Some? || StatusAfter(st, between) == (st.session.status, st.session.reason))
  {
    var l, c := TakeAll(DiesAfterAppend(st, first, options), between), TakeAll(Deliver(st, first, options).0, between);
    ShiftedThroughout(st, first, options, between);
    FindsFirst(st, first, l);
    FirstRepaired(st, first, options, l);
    QuietForms(st, between);
    hide HasEvent, IsAppendable, LeaseHolds, NoneAhead, AreOthers;
    if AppendsNothing(st, between) {
      QuietRuns(st, first, options, between);
    } else {
      var i := |st.log| + 1;
      assert i < |l.log| && c.log[i].sequence == l.log[i].sequence + 1;
    }
  }

  /** After such a repair the cursor is one short of the crash-free one, unless nothing has raised it since `first`; if
      nothing else died in between, that is unless nothing could be appended. */
  lemma LateCursor(st: State, first: Incoming, options: Options, between: seq<Step>)
    requires NoneAhead(st) && IsAppendable(st, first, options) && AreOthers(between, first)
    ensures var late := Deliver(TakeAll(DiesAfterAppend(st, first, options), between), first, options).0.session.cursor;
            var clean := TakeAll(Deliver(st, first, options).0, between).session.cursor;
            && late == (if clean == st.session.cursor + 1 then clean else clean - 1)
            && (Deaths(between) == 0 ==> (late == clean <==> AppendsNothing(st, between)))
  {
    var l, c := TakeAll(DiesAfterAppend(st, first, options), between), TakeAll(Deliver(st, first, options).0, between);
    ShiftedThroughout(st, first, options, between);
    FindsFirst(st, first, l);
    FirstRepaired(st, first, options, l);
    QuietForms(st, between);
    DeliverForms(st, first, options);
    if Deaths(between) == 0 {
      CursorFollowsLog(Deliver(st, first, options).0, between);
    }
    hide HasEvent, IsAppendable, LeaseHolds, AreOthers, Deaths, TakeAll;
  }

  /** An instance in which it does not: the session fails after the crash, and the late repair sets it running again. */
  lemma LateRepairOverrides(session: Session, first: Incoming, second: Incoming, running: Options, failed: Options)
    requires first.eventId != second.eventId && running == Options(false, Some(Running), None)
    requires failed == Options(false, Some(Failed), Some("lost"))
    ensures var st := Deliver(DiesAfterAppend(State([], session), first, running), second, failed).0;
            && st.session.status == Failed
            && Deliver(st, first, running).0.session.status == Running
            && Deliver(Deliver(State([], session), first, running).0, second, failed).0.session.status == Failed
  {
    var a := NewEntry(session, first);
    NewEventIsLast([], a);
    assert IndexOfEvent([a], second.eventId) == 1;
    var b := NewEntry(session, second);
    assert IndexOfEvent([a] + [b], first.eventId) == 0 by {
      assert ([a] + [b])[0] == a;
    }
  }
}
