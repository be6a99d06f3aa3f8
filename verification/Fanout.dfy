/** The fan-out group: one parent tool request sent to many devices. Each member's call ends in its own time; the
    write that ends the last one settles the group with one aggregated answer for the parent. */
module Fanout {
  import opened Basics
  import opened CasStorage
  import opened CasLoop

  datatype MemberStatus = Starting | Pending | Completed | Failed

  datatype Failure = Failure(code: string, message: string)

  datatype Member = Member(deviceRef: string, callId: Option<string>, status: MemberStatus, result: Option<string>,
                           failure: Option<Failure>)

  datatype Report = Observed(deviceRef: string, observation: string) | Erred(deviceRef: string, error: string)

  datatype Aggregate = Aggregate(total: nat, completed: nat, failed: nat, devices: seq<Report>)

  datatype Group = Group(
    parentSessionId: string,
    parentTurnSeq: nat,
    parentRequestId: string,
    delegateId: string,
    input: string,
    members: seq<Member>,
    settled: bool,
    aggregate: Option<Aggregate>,
    delivered: bool)

  predicate Terminal(m: Member) {
    m.status == Completed || m.status == Failed
  }

  function DeviceRefs(ms: seq<Member>): (refs: seq<string>)
    ensures |refs| == |ms| && forall i :: 0 <= i < |ms| ==> refs[i] == ms[i].deviceRef
  {
    seq(|ms|, i requires 0 <= i < |ms| => ms[i].deviceRef)
  }

  function ReportOf(m: Member): Report {
    if m.status == Completed then Observed(m.deviceRef, m.result.GetOr(""))
    else
      var f := m.failure.GetOr(Failure("failed", ""));
      Erred(m.deviceRef, f.code + ": " + f.message)
  }

  function AggregateOf(ms: seq<Member>): Aggregate {
    var completed := CountIf(ms, (m: Member) => m.status == Completed);
    Aggregate(|ms|, completed, |ms| - completed, seq(|ms|, i requires 0 <= i < |ms| => ReportOf(ms[i])))
  }

  function NewGroup(parentSessionId: string, parentTurnSeq: nat, parentRequestId: string, delegateId: string,
                    input: string, deviceRefs: seq<string>): Group {
    Group(parentSessionId, parentTurnSeq, parentRequestId, delegateId, input,
          seq(|deviceRefs|, i requires 0 <= i < |deviceRefs| => Member(deviceRefs[i], None, Starting, None, None)),
          false, None, false)
  }

  // ---------- Decisions ----------

  datatype CallOutcome = Succeeded(result: string) | FailedWith(failure: Failure)

  datatype Op =
    | Attach(deviceRef: string, callId: string)
    | StartupFailed(deviceRef: string, failure: Failure)
    | Ended(callId: string, outcome: CallOutcome)
    | MarkDelivered

  function Applied(m: Member, outcome: CallOutcome): Member {
    match outcome
    case Succeeded(result) => m.(status := Completed, result := Some(result))
    case FailedWith(failure) => m.(status := Failed, failure := Some(failure))
  }

  /** The members an operation is about. */
  predicate Matches(op: Op, m: Member) {
    match op
    case Attach(deviceRef, _) => m.deviceRef == deviceRef
    case StartupFailed(deviceRef, _) => m.deviceRef == deviceRef
    case Ended(callId, _) => m.callId == Some(callId)
    case MarkDelivered => false
  }

  function Target(op: Op, g: Group): (i: nat)
    ensures i <= |g.members| && (i < |g.members| ==> Matches(op, g.members[i]))
    ensures forall j :: 0 <= j < i ==> !Matches(op, g.members[j])
  {
    FirstIndex(g.members, (m: Member) => Matches(op, m))
  }

  function MapMatching(op: Op, ms: seq<Member>, f: Member -> Member): (r: seq<Member>)
    ensures |r| == |ms| && forall i :: 0 <= i < |ms| ==> r[i] == if Matches(op, ms[i]) then f(ms[i]) else ms[i]
  {
    seq(|ms|, i requires 0 <= i < |ms| => if Matches(op, ms[i]) then f(ms[i]) else ms[i])
  }

  function DecideAttach(op: Op, g: Group): Verdict<Group>
    requires op.Attach?
  {
    var i := Target(op, g);
    if i == |g.members| then Refuse
    else if g.members[i].callId == Some(op.callId) && g.members[i].status != Starting then Keep
    else if g.members[i].status != Starting then Refuse
    else Replace(g.(members := MapMatching(op, g.members,
                                           (m: Member) => m.(callId := Some(op.callId), status := Pending))))
  }

  function OutcomeOf(op: Op): CallOutcome
    requires op.StartupFailed? || op.Ended?
  {
    if op.StartupFailed? then FailedWith(op.failure) else op.outcome
  }

  function DecideOutcome(op: Op, g: Group): Verdict<Group>
    requires op.StartupFailed? || op.Ended?
  {
    var i := Target(op, g);
    if g.settled then Keep
    else if i == |g.members| then Refuse
    else if Terminal(g.members[i]) then Keep
    else
      var members := MapMatching(op, g.members, (m: Member) => Applied(m, OutcomeOf(op)));
      var allTerminal := forall j :: 0 <= j < |members| ==> Terminal(members[j]);
      Replace(g.(members := members, settled := allTerminal,
                 aggregate := if allTerminal then Some(AggregateOf(members)) else g.aggregate))
  }

  function Decide(op: Op, g: Group): Verdict<Group> {
    match op
    case Attach(_, _) => DecideAttach(op, g)
    case StartupFailed(_, _) => DecideOutcome(op, g)
    case Ended(_, _) => DecideOutcome(op, g)
    case MarkDelivered =>
      if g.delivered then Keep
      else if !g.settled || g.aggregate.None? then Refuse
      else Replace(g.(delivered := true))
  }

  /** A group is opened for exactly these devices, in this order, each waiting to start. */
  lemma NewGroupIsFor(parent: string, turnSeq: nat, requestId: string, delegateId: string, input: string,
                      deviceRefs: seq<string>)
    ensures var g := NewGroup(parent, turnSeq, requestId, delegateId, input, deviceRefs);
            && g.parentSessionId == parent && g.parentTurnSeq == turnSeq && g.parentRequestId == requestId
            && g.delegateId == delegateId && g.input == input && !g.settled && !g.delivered && g.aggregate.None?
            && DeviceRefs(g.members) == deviceRefs
            && forall i :: 0 <= i < |g.members| ==> g.members[i].status == Starting && g.members[i].callId.None?
  {
  }

  // ---------- Shape and evolution of one group ----------

  predicate MemberShape(m: Member) {
    match m.status
    case Starting => m.callId.None? && m.result.None? && m.failure.None?
    case Pending => m.callId.Some? && m.result.None? && m.failure.None?
    case Completed => m.callId.Some? && m.result.Some? && m.failure.None?
    case Failed => m.result.None? && m.failure.Some?
  }

  predicate AllTerminal(ms: seq<Member>) {
    forall i :: 0 <= i < |ms| ==> Terminal(ms[i])
  }

  predicate Apart(ms: seq<Member>) {
    forall i, j :: 0 <= i < j < |ms| ==>
      ms[i].deviceRef != ms[j].deviceRef && (ms[i].callId.Some? ==> ms[i].callId != ms[j].callId)
  }

  predicate Shape(g: Group) {
    && |g.members| >= 1 && Apart(g.members)
    && (forall i :: 0 <= i < |g.members| ==> MemberShape(g.members[i]))
    && (g.settled <==> AllTerminal(g.members))
    && g.aggregate == (if g.settled then Some(AggregateOf(g.members)) else None)
    && (g.delivered ==> g.settled)
  }

  /** A call is opened for one device, so no other member has it. */
  predicate CallIsOwn(op: Op, g: Group) {
    op.Attach? ==> forall i :: 0 <= i < |g.members| ==> g.members[i].callId == Some(op.callId) ==>
      g.members[i].deviceRef == op.deviceRef
  }

  predicate MemberEvolves(a: Member, b: Member) {
    && b.deviceRef == a.deviceRef && (a.callId.Some? ==> b.callId == a.callId)
    && (Terminal(a) ==> b == a) && (a.status == Pending ==> b.status != Starting)
  }

  predicate SameIntent(a: Group, b: Group) {
    && a.parentSessionId == b.parentSessionId && a.parentRequestId == b.parentRequestId
    && a.delegateId == b.delegateId && a.input == b.input && DeviceRefs(a.members) == DeviceRefs(b.members)
  }

  predicate Evolves(a: Group, b: Group) {
    && SameIntent(a, b) && a.parentTurnSeq == b.parentTurnSeq
    && (forall i :: 0 <= i < |a.members| && i < |b.members| ==> MemberEvolves(a.members[i], b.members[i]))
    && (a.settled ==> b.settled && b.aggregate == a.aggregate && b.members == a.members)
    && (a.delivered ==> b.delivered)
  }

  /** In a well-shaped group an operation is about at most one member. */
  lemma OneTarget(op: Op, g: Group, f: Member -> Member)
    requires Shape(g)
    ensures MapMatching(op, g.members, f) ==
            if Target(op, g) < |g.members| then g.members[Target(op, g) := f(g.members[Target(op, g)])] else g.members
  {
    hide AllTerminal, AggregateOf;
  }

  /** Moving one unfinished member on, keeping its device and a call id no other member has. */
  lemma MemberMoves(g: Group, i: nat, m: Member)
    requires Shape(g) && i < |g.members| && !Terminal(g.members[i]) && MemberShape(m) && MemberEvolves(g.members[i], m)
    requires m.callId.Some? ==> forall j :: 0 <= j < |g.members| && j != i ==> g.members[j].callId != m.callId
    ensures var ms := g.members[i := m];
            && Apart(ms) && DeviceRefs(ms) == DeviceRefs(g.members) && !g.settled
            && forall j :: 0 <= j < |ms| ==> MemberShape(ms[j]) && MemberEvolves(g.members[j], ms[j])
  {
    hide AggregateOf;
  }

  lemma AttachKeeps(op: Op, g: Group)
    requires op.Attach? && Shape(g) && CallIsOwn(op, g) && Decide(op, g).Replace?
    ensures var i := Target(op, g);
            i < |g.members|
            && var m := g.members[i].(callId := Some(op.callId), status := Pending);
               Decide(op, g).next == g.(members := g.members[i := m])
    ensures Shape(Decide(op, g).next) && Evolves(g, Decide(op, g).next)
  {
    var i := Target(op, g);
    var m := g.members[i].(callId := Some(op.callId), status := Pending);
    OneTarget(op, g, (m: Member) => m.(callId := Some(op.callId), status := Pending));
    MemberMoves(g, i, m);
    assert !Terminal(g.members[i := m][i]);
    hide AggregateOf, MemberShape, MemberEvolves, Apart;
    assert Evolves(g, Decide(op, g).next);
  }

  lemma OutcomeForm(op: Op, g: Group)
    requires op.StartupFailed? || op.Ended?
    requires Shape(g) && Decide(op, g).Replace?
    ensures var i := Target(op, g);
            && i < |g.members| && !Terminal(g.members[i])
            && var ms := g.members[i := Applied(g.members[i], OutcomeOf(op))];
               Decide(op, g).next == g.(members := ms, settled := AllTerminal(ms),
                                        aggregate := if AllTerminal(ms) then Some(AggregateOf(ms)) else g.aggregate)
  {
    OneTarget(op, g, (m: Member) => Applied(m, OutcomeOf(op)));
    hide AggregateOf, MemberShape, Apart, DeviceRefs, Applied, Target;
  }

  /** Recording an outcome ends exactly the one member it is about; the group settles if that was the last. */
  lemma OutcomeKeeps(op: Op, g: Group)
    requires op.StartupFailed? || op.Ended?
    requires Shape(g) && Decide(op, g).Replace?
    ensures var i, g' := Target(op, g), Decide(op, g).next;
            && i < |g.members| && !Terminal(g.members[i])
            && g'.members == g.members[i := Applied(g.members[i], OutcomeOf(op))]
            && (g'.settled <==> forall j :: 0 <= j < |g.members| && j != i ==> Terminal(g.members[j]))
    ensures Shape(Decide(op, g).next) && Evolves(g, Decide(op, g).next)
  {
    var i := Target(op, g);
    var m := Applied(g.members[i], OutcomeOf(op));
    OutcomeForm(op, g);
    hide Decide, MapMatching, Target, OutcomeOf;
    MemberMoves(g, i, m);
    hide AggregateOf, MemberShape, MemberEvolves, Apart, DeviceRefs, Applied;
    var g' := Decide(op, g).next;
    assert forall j :: 0 <= j < |g.members| && j != i ==> g'.members[j] == g.members[j];
  }

  /** Attaching starts exactly a member that waits; repeating the attachment changes nothing; attaching another call to
      a member that has one, or a call to a device that is no member, is refused. */
  lemma AttachExactly(op: Op, g: Group)
    requires op.Attach? && Shape(g)
    ensures var verdict := Decide(op, g);
            && (forall i :: 0 <= i < |g.members| && g.members[i].deviceRef == op.deviceRef ==>
                  if g.members[i].status == Starting then
                    verdict.Replace? && verdict.next.members == g.members[i := g.members[i].(callId := Some(op.callId),
                                                                                           status := Pending)]
                  else if g.members[i].callId == Some(op.callId) then verdict.Keep?
                  else verdict.Refuse?)
            && (op.deviceRef !in DeviceRefs(g.members) ==> verdict.Refuse?)
  {
    hide AggregateOf, AllTerminal;
    forall i | 0 <= i < |g.members| && g.members[i].deviceRef == op.deviceRef ensures Target(op, g) == i {
      assert Matches(op, g.members[i]);
    }
    OneTarget(op, g, (m: Member) => m.(callId := Some(op.callId), status := Pending));
  }

  /** An outcome is taken exactly by an unfinished member it is about. It changes nothing once the group is settled or
      the member has ended, and is refused if it is about no member of a group still open. */
  lemma OutcomeExactly(op: Op, g: Group)
    requires (op.StartupFailed? || op.Ended?) && Shape(g)
    ensures var verdict := Decide(op, g);
            && (forall i :: 0 <= i < |g.members| && Matches(op, g.members[i]) ==>
                  !verdict.Refuse? && (verdict.Replace? <==> !Terminal(g.members[i])))
            && ((forall i :: 0 <= i < |g.members| ==> !Matches(op, g.members[i])) ==>
                  if g.settled then verdict.Keep? else verdict.Refuse?)
  {
    hide AggregateOf;
    forall i | 0 <= i < |g.members| && Matches(op, g.members[i]) ensures Target(op, g) == i {
    }
  }

  /** A settled group is marked delivered once; one still open is never. */
  lemma DeliverExactly(g: Group)
    requires Shape(g)
    ensures Decide(MarkDelivered, g) ==
            if !g.settled then Refuse else if g.delivered then Keep else Replace(g.(delivered := true))
  {
    hide AggregateOf;
  }

  lemma EveryWriteKeepsShape(op: Op, g: Group)
    requires Shape(g) && CallIsOwn(op, g) && Decide(op, g).Replace?
    ensures Shape(Decide(op, g).next) && Evolves(g, Decide(op, g).next)
  {
    match op
    case Attach(_, _) => AttachKeeps(op, g);
    case StartupFailed(_, _) => OutcomeKeeps(op, g);
    case Ended(_, _) => OutcomeKeeps(op, g);
    case MarkDelivered =>
  }

  lemma EvolvesReflexive(a: Group)
    ensures Evolves(a, a)
  {
  }

  lemma EvolvesTransitive(a: Group, b: Group, c: Group)
    requires Evolves(a, b) && Evolves(b, c)
    ensures Evolves(a, c)
  {
    assert |a.members| == |DeviceRefs(a.members)| == |b.members| == |c.members|;
    forall i | 0 <= i < |a.members| ensures MemberEvolves(a.members[i], c.members[i]) {
      assert MemberEvolves(a.members[i], b.members[i]) && MemberEvolves(b.members[i], c.members[i]);
    }
  }

  /** Members `i` and `k` share a call: `i` is the first member with it and unfinished, `k` has ended. */
  predicate SharesCall(g: Group, callId: string, i: nat, k: nat) {
    && i < |g.members| && k < |g.members|
    && g.members[i].callId == Some(callId) && g.members[k].callId == Some(callId)
    && !Terminal(g.members[i]) && Terminal(g.members[k])
    && forall j :: 0 <= j < i ==> g.members[j].callId != Some(callId)
  }

  /** Recording the call's outcome changes the ended member `k`. */
  predicate Rewrites(g: Group, callId: string, outcome: CallOutcome, k: nat) {
    var verdict := Decide(Ended(callId, outcome), g);
    && verdict.Replace? && k < |g.members| == |verdict.next.members| && Terminal(g.members[k])
    && verdict.next.members[k] != g.members[k]
  }

  /** Why calls must not be shared: an outcome rewrites a device that had already answered exactly when, in a group not
      settled, that device shares the call with an unfinished member that comes first and its answer was another. */
  lemma SharedCallOverwrites(g: Group, callId: string, outcome: CallOutcome, k: nat)
    ensures Rewrites(g, callId, outcome, k)
            <==> !g.settled && (exists i: nat :: SharesCall(g, callId, i, k))
                 && Applied(g.members[k], outcome) != g.members[k]
  {
    hide AggregateOf;
    var op := Ended(callId, outcome);
    var first := Target(op, g);
    if Rewrites(g, callId, outcome, k) {
      assert SharesCall(g, callId, first, k);
    }
    if i: nat :| SharesCall(g, callId, i, k) {
      assert Matches(op, g.members[i]);
      assert first == i;
    }
  }

  /** The aggregate accounts for every device once, in member order, and its totals add up. */
  lemma {:induction false} AggregateIsHonest(ms: seq<Member>)
    ensures var a := AggregateOf(ms);
            && a.completed + a.failed == a.total == |ms| == |a.devices|
            && a.completed == CountIf(a.devices, (r: Report) => r.Observed?)
            && forall i :: 0 <= i < |ms| ==>
                 && a.devices[i].deviceRef == ms[i].deviceRef
                 && (a.devices[i].Observed? <==> ms[i].status == Completed)
                 && (ms[i].status == Completed && ms[i].result.Some? ==> a.devices[i].observation == ms[i].result.value)
                 && (ms[i].status != Completed && ms[i].failure.Some? ==>
                       a.devices[i].error == ms[i].failure.value.code + ": " + ms[i].failure.value.message)
  {
    if ms != [] {
      AggregateIsHonest(ms[..|ms| - 1]);
      var a := AggregateOf(ms);
      assert a.devices[..|ms| - 1] == AggregateOf(ms[..|ms| - 1]).devices;
    }
  }

  // ---------- Any number of clients, interleaved ----------

  function SameRequest(a: Group, b: Group): bool {
    a.parentSessionId == b.parentSessionId && a.parentRequestId == b.parentRequestId
  }

  function Groups(): Kind<Group> {
    Kind((a: Group, b: Group) => SameIntent(a, b), (a: Group, b: Group) => SameRequest(a, b))
  }

  ghost predicate IsNew(g: Group) {
    exists deviceRefs: seq<string> ::
      && |deviceRefs| >= 1 && (forall i, j :: 0 <= i < j < |deviceRefs| ==> deviceRefs[i] != deviceRefs[j])
      && g == NewGroup(g.parentSessionId, g.parentTurnSeq, g.parentRequestId, g.delegateId, g.input, deviceRefs)
  }

  ghost predicate Writes(a: Group, b: Group) {
    exists op: Op :: CallIsOwn(op, a) && Decide(op, a) == Replace(b)
  }

  ghost predicate FanoutRun(states: seq<State<Group>>, events: seq<Event<Group>>) {
    Obeys(Groups(), g => IsNew(g), (a, b) => Writes(a, b), states, events)
  }

  lemma NewGroupShape(g: Group)
    requires IsNew(g)
    ensures Shape(g)
  {
    assert !Terminal(g.members[0]);
  }

  /** Every stored group is well shaped in every reachable state: settled exactly when every member has ended, with an
      aggregate exactly then, and delivered only if settled. */
  lemma ReachableShape(states: seq<State<Group>>, events: seq<Event<Group>>, i: nat, id: string)
    requires FanoutRun(states, events) && i <= |events| && id in states[i].table
    ensures Shape(states[i].table[id].body)
  {
    forall g | IsNew(g) ensures Shape(g) {
      NewGroupShape(g);
    }
    WritesKeepShape();
    hide Shape, IsNew, Writes;
    RecordsKeep(Groups(), g => IsNew(g), (a, b) => Writes(a, b), g => Shape(g), states, events, i);
  }

  lemma WritesKeepShape()
    ensures forall a, b :: Shape(a) && Writes(a, b) ==> Shape(b) && Evolves(a, b)
  {
    hide Shape, Evolves, CallIsOwn, Decide;
    forall a, b | Shape(a) && Writes(a, b) ensures Shape(b) && Evolves(a, b) {
      var op :| CallIsOwn(op, a) && Decide(op, a) == Replace(b);
      EveryWriteKeepsShape(op, a);
    }
  }

  /** Outcomes, attachments, settlement, the aggregate and delivery are never taken back. */
  lemma ReachableEvolution(states: seq<State<Group>>, events: seq<Event<Group>>, i: nat, j: nat, id: string)
    requires FanoutRun(states, events) && i <= j <= |events| && id in states[i].table
    ensures id in states[j].table && Evolves(states[i].table[id].body, states[j].table[id].body)
  {
    hide Shape, Evolves, IsNew, Writes;
    forall g | IsNew(g) ensures Shape(g) {
      NewGroupShape(g);
    }
    WritesKeepShape();
    forall g ensures Evolves(g, g) {
      EvolvesReflexive(g);
    }
    forall a, b, c | Evolves(a, b) && Shape(b) && Writes(b, c) ensures Evolves(a, c) {
      EvolvesTransitive(a, b, c);
    }
    RecordsMove(Groups(), g => IsNew(g), (a, b) => Writes(a, b), g => Shape(g), (a, b) => Evolves(a, b), states, events,
                id, i, j);
  }

  /** One parent tool request opens at most one group. */
  lemma OneGroupPerRequest(states: seq<State<Group>>, events: seq<Event<Group>>, i: nat, x: string, y: string)
    requires FanoutRun(states, events) && i <= |events|
    requires x in states[i].table && y in states[i].table
    requires states[i].table[x].body.parentSessionId == states[i].table[y].body.parentSessionId
    requires states[i].table[x].body.parentRequestId == states[i].table[y].body.parentRequestId
    ensures x == y
  {
    hide IsNew, Writes;
    RecordsApart(Groups(), g => IsNew(g), (a, b) => Writes(a, b), states, events, i);
  }

  /** Event `i` is the write on which `recordOutcomeInGroup` hands its caller the aggregate. */
  ghost predicate Settles(states: seq<State<Group>>, events: seq<Event<Group>>, i: nat, id: string)
    requires |states| == |events| + 1 && i < |events|
  {
    && id in states[i].table && Swaps(Groups(), states[i], events[i], id)
    && !states[i].table[id].body.settled && events[i].next.body.settled
  }

  /** The parent is answered once: in any interleaving a group settles at most once, and what is stored ever after is
      the aggregate of that moment. */
  lemma SettlesOnce(states: seq<State<Group>>, events: seq<Event<Group>>, i: nat, j: nat, id: string)
    requires FanoutRun(states, events) && i < |events| && i < j <= |events| && Settles(states, events, i, id)
    ensures j < |events| ==> !Settles(states, events, j, id)
    ensures id in states[j].table && states[j].table[id].body.settled
    ensures states[j].table[id].body.aggregate == Some(AggregateOf(events[i].next.body.members))
            == events[i].next.body.aggregate
  {
    hide IsNew, Writes, AggregateOf;
    StepMovesRevision(Groups(), states[i], events[i], states[i + 1], id);
    ReachableShape(states, events, i + 1, id);
    ReachableEvolution(states, events, i + 1, j, id);
  }

  // ---------- The manager ----------

  /** Every method of the manager: decide on the group as stored, and write. */
  method Apply(folder: SharedFolder<Group>, groupId: string, op: Op) returns (outcome: Outcome<Group>, ghost k: nat)
    modifies folder
    ensures k <= |old(folder.schedule)| && folder.schedule == old(folder.schedule)[k..]
    ensures var a := ActAll(old(folder.records), Flat(old(folder.schedule)[..k]));
            && folder.records == Act(a, groupId, (g: Group) => Decide(op, g))
            && outcome == Told(a, groupId, (g: Group) => Decide(op, g))
  {
    outcome, k := folder.Update(groupId, (g: Group) => Decide(op, g));
  }

  /** `recordOutcomeInGroup` gives its caller the aggregate exactly when its own write settled the group. */
  method RecordOutcome(folder: SharedFolder<Group>, groupId: string, op: Op)
    returns (settledAggregate: Option<Aggregate>, ghost k: nat)
    requires op.StartupFailed? || op.Ended?
    modifies folder
    ensures k <= |old(folder.schedule)| && folder.schedule == old(folder.schedule)[k..]
    ensures var a := ActAll(old(folder.records), Flat(old(folder.schedule)[..k]));
            && folder.records == Act(a, groupId, (g: Group) => Decide(op, g))
            && (settledAggregate.Some? <==>
                  groupId in a && !a[groupId].body.settled && folder.records[groupId].body.settled)
            && (settledAggregate.Some? ==> settledAggregate == Some(AggregateOf(folder.records[groupId].body.members)))
  {
    var outcome;
    outcome, k := Apply(folder, groupId, op);
    settledAggregate := if outcome.Replaced? && outcome.record.settled then outcome.record.aggregate else None;
  }
}
