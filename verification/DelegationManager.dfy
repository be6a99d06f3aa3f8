/** The delegation manager and dispatcher as written: loops that read a record, compute a replacement and
    compare-and-set it, with other clients' writes landing at every `await`. Each call is shown to take effect
    atomically at one moment, and to terminate because every failed attempt is another client's success. */
module DelegationManager {
  import opened Basics
  import opened CasStorage
  import opened Delegation
  import opened DelegationMachine

  // ---------- Other clients ----------

  /** `n` atomic steps lead from `t` to `t'`. */
  ghost predicate Ran(t: Table<Record>, t': Table<Record>, n: nat)
    decreases n
  {
    if n == 0 then t == t' else exists m :: Ran(t, m, n - 1) && AtomicStep(m, t')
  }

  lemma {:induction false} RanKeeps(t: Table<Record>, t': Table<Record>, n: nat)
    requires TableInv(t) && Ran(t, t', n)
    ensures TableInv(t') && Grows(t, t')
    decreases n
  {
    hide TableInv, Grows, AtomicStep;
    if n == 0 {
      GrowsReflexive(t);
    } else {
      var m :| Ran(t, m, n - 1) && AtomicStep(m, t');
      RanKeeps(t, m, n - 1);
      AtomicStepKeeps(m, t');
      GrowsTransitive(t, m, t');
    }
  }

  lemma {:induction false} RanConcat(a: Table<Record>, b: Table<Record>, c: Table<Record>, m: nat, n: nat)
    requires Ran(a, b, m) && Ran(b, c, n)
    ensures Ran(a, c, m + n)
    decreases n
  {
    hide AtomicStep;
    if n > 0 {
      var x :| Ran(b, x, n - 1) && AtomicStep(x, c);
      RanConcat(a, b, x, m, n - 1);
    }
  }

  lemma RanNone(t: Table<Record>)
    ensures Ran(t, t, 0)
  {
  }

  lemma RanStep(a: Table<Record>, b: Table<Record>, c: Table<Record>, n: nat)
    requires Ran(a, b, n) && AtomicStep(b, c)
    ensures Ran(a, c, n + 1)
  {
    hide AtomicStep;
  }

  /** This client's UUIDs; no other client ever mints one of them. */
  function OwnId(k: nat): string {
    seq(k + 1, i => '#')
  }

  predicate IsOwn(id: string) {
    id != "" && forall i :: 0 <= i < |id| ==> id[i] == '#'
  }

  /** One write by another client. */
  datatype Update = Writes(id: string, op: Op) | Creates(id: string, record: Record)

  predicate ForeignOp(op: Op) {
    match op
    case Append(callId, _, _, _) => !IsOwn(callId)
    case Activate(_, inputEventId, commandEventId) => !IsOwn(inputEventId) && !IsOwn(commandEventId)
    case _ => true
  }

  /** The table after another client's write, if it is one the protocol allows at this moment. */
  function ApplyUpdate(t: Table<Record>, u: Update): Table<Record> {
    match u
    case Writes(id, op) =>
      if id in t && ForeignOp(op) && Minted(t, op) && Decide(op, t[id].body).Write?
      then t[id := Versioned(t[id].revision + 1, Decide(op, t[id].body).next)] else t
    case Creates(id, d) =>
      if id !in t && IsNewRecord(t, d) && !IsOwn(d.calls[0].callId) && Clashes(t, LiveClash, d) == {} then
        t[id := Versioned(1, d)] else t
  }

  /** No stored call or dispatch uses `id`. */
  ghost predicate Unused(t: Table<Record>, id: string) {
    forall a :: a in t ==> !HasCall(t[a].body, id) && !RecordUsesEvent(t[a].body, id)
  }

  ghost predicate OwnIdsUnused(t: Table<Record>, minted: nat) {
    forall k: nat :: k >= minted ==> Unused(t, OwnId(k))
  }

  lemma ForeignCreateMintsNoOwnId(t: Table<Record>, t': Table<Record>, id: string, d: Record, minted: nat)
    requires OwnIdsUnused(t, minted) && IsCreate(t, t', id, d) && !IsOwn(d.calls[0].callId)
    ensures OwnIdsUnused(t', minted)
  {
    hide Clashes, Shape;
    forall k: nat | k >= minted ensures Unused(t', OwnId(k)) {
      assert IsOwn(OwnId(k)) && Unused(t, OwnId(k));
      assert !HasCall(d, OwnId(k)) && !RecordUsesEvent(d, OwnId(k));
    }
  }

  lemma UpdateIsAtomic(t: Table<Record>, u: Update, minted: nat)
    requires StoreInv(t, minted)
    ensures ApplyUpdate(t, u) == t || AtomicStep(t, ApplyUpdate(t, u))
    ensures StoreInv(ApplyUpdate(t, u), minted)
  {
    hide Decide, Shape, OwnIdsUnused, TableInv, Minted, IsNewRecord, ForeignOp, IsOwn, Clashes;
    var t' := ApplyUpdate(t, u);
    if t' != t {
      match u
      case Creates(id, d) =>
        CreatesIsCreate(t, id, d);
        ForeignCreateMintsNoOwnId(t, t', id, d, minted);
        CreateKeeps(t, t', id, d);
      case Writes(id, op) =>
        WritesIsWrite(t, id, op);
        ForeignWriteMintsNoOwnId(t, t', id, op, minted);
        WriteKeeps(t, t', id, op);
    }
  }

  lemma CreatesIsCreate(t: Table<Record>, id: string, d: Record)
    requires ApplyUpdate(t, Creates(id, d)) != t
    ensures IsCreate(t, ApplyUpdate(t, Creates(id, d)), id, d) && !IsOwn(d.calls[0].callId)
  {
    hide Minted, IsOwn, Clashes;
  }

  lemma WritesIsWrite(t: Table<Record>, id: string, op: Op)
    requires ApplyUpdate(t, Writes(id, op)) != t
    ensures IsWrite(t, ApplyUpdate(t, Writes(id, op)), id, op) && ForeignOp(op)
  {
    hide Minted, IsOwn, Decide;
  }

  lemma ForeignOpBringsNoOwnId(op: Op, k: nat)
    requires ForeignOp(op)
    ensures OwnId(k) !in NewCalls(op) && OwnId(k) !in NewEvents(op)
  {
    assert IsOwn(OwnId(k));
  }

  lemma ForeignWriteMintsNoOwnId(t: Table<Record>, t': Table<Record>, id: string, op: Op, minted: nat)
    requires TableInv(t) && OwnIdsUnused(t, minted) && ForeignOp(op) && IsWrite(t, t', id, op)
    ensures OwnIdsUnused(t', minted)
  {
    hide Shape, Decide, HasCall, RecordUsesEvent, EventsOfCallsDistinct, TableInv, Evolves, FreshFor, NewCalls,
         NewEvents, OwnId,
         Minted, ForeignOp, IsOwn;
    WriteFacts(t, id, op);
    forall k: nat | k >= minted ensures Unused(t', OwnId(k)) {
      ForeignOpBringsNoOwnId(op, k);
      assert Unused(t, OwnId(k));
    }
  }

  function BatchSize(schedule: seq<seq<Update>>): nat {
    if schedule == [] then 0 else |schedule[0]| + BatchSize(schedule[1..])
  }

  lemma BatchHead(schedule: seq<seq<Update>>)
    requires schedule != []
    ensures BatchSize(schedule) == |schedule[0]| + BatchSize(schedule[1..])
  {
  }

  ghost predicate StoreInv(t: Table<Record>, minted: nat) {
    TableInv(t) && OwnIdsUnused(t, minted)
  }

  /** How an operation finds its delegation. */
  datatype Locator = ById(id: string) | ByChild(childSessionId: string) | ByCall(callId: string)

  predicate Names(which: Locator, id: string, d: Record) {
    match which
    case ById(wanted) => id == wanted
    case ByChild(child) => d.childSessionId == child
    case ByCall(callId) => HasCall(d, callId)
  }

  lemma StillNamed(which: Locator, id: string, d: Record, d': Record)
    requires Names(which, id, d) && Evolves(d, d')
    ensures Names(which, id, d')
  {
    if which.ByCall? {
      var i :| 0 <= i < |d.calls| && d.calls[i].callId == which.callId;
      assert CallEvolves(d.calls[i], d'.calls[i]);
    }
  }

  /** The stored delegations, together with everything other clients will write: the batch that lands at the next
      `await`, then the one after it, and so on. */
  class DelegationStore {
    var table: Table<Record>
    var schedule: seq<seq<Update>>
    var minted: nat

    ghost predicate Valid()
      reads this
    {
      StoreInv(table, minted)
    }

    constructor (others: seq<seq<Update>>)
      ensures Valid() && table == map[] && schedule == others && minted == 0
    {
      table, schedule, minted := map[], others, 0;
    }

    ghost function Pending(): nat
      reads this
    {
      BatchSize(schedule)
    }

    /** Other clients run. */
    method Await()
      requires Valid()
      modifies this`table, this`schedule
      ensures Valid()
      ensures exists n: nat :: Ran(old(table), table, n) && Pending() + n <= old(Pending())
    {
      hide StoreInv, AtomicStep, ApplyUpdate, Ran, BatchSize;
      RanNone(table);
      if schedule == [] {
        return;
      }
      BatchHead(schedule);
      var batch := schedule[0];
      schedule := schedule[1..];
      ghost var steps: nat := 0;
      for i := 0 to |batch|
        invariant StoreInv(table, minted) && Ran(old(table), table, steps)
        invariant steps <= i && schedule == old(schedule)[1..]
      {
        ghost var before := table;
        UpdateIsAtomic(table, batch[i], minted);
        table := ApplyUpdate(table, batch[i]);
        if before != table {
          RanStep(old(table), before, table, steps);
          steps := steps + 1;
        }
      }
    }

    /** The id of a delegation that `which` names. */
    method Find(which: Locator) returns (found: Option<string>)
      ensures found.Some? ==> found.value in table && Names(which, found.value, table[found.value].body)
      ensures found.None? ==> forall id :: id in table ==> !Names(which, id, table[id].body)
    {
      var hits := set id | id in table && Names(which, id, table[id].body);
      if hits == {} {
        assert forall id :: id in table && Names(which, id, table[id].body) ==> id in hits;
        return None;
      }
      var id :| id in hits;
      return Some(id);
    }

    method CompareAndSet(id: string, expected: nat, next: Versioned<Record>) returns (outcome: CasOutcome)
      modifies this`table
      ensures outcome == CasVerdict(old(table), SameKey, id, expected, next)
      ensures table == CasTable(old(table), SameKey, id, expected, next)
    {
      outcome := CasVerdict(table, SameKey, id, expected, next);
      if outcome == Swapped {
        table := table[id := next];
      }
    }
  }

  // ---------- When a call takes effect ----------

  datatype Outcome = Missing | Threw | Returned(id: string, record: Record)

  /** Only other clients wrote between `t` and `t'`. */
  ghost predicate OthersOnly(t: Table<Record>, t': Table<Record>) {
    exists n: nat :: Ran(t, t', n)
  }

  lemma OthersOnlyNone(t: Table<Record>)
    ensures OthersOnly(t, t)
  {
    RanNone(t);
  }

  lemma OthersOnlyConcat(a: Table<Record>, b: Table<Record>, c: Table<Record>)
    requires OthersOnly(a, b) && OthersOnly(b, c)
    ensures OthersOnly(a, c)
  {
    hide Ran;
    var m: nat :| Ran(a, b, m);
    var n: nat :| Ran(b, c, n);
    RanConcat(a, b, c, m, n);
  }

  /** What `op` does to the delegation `id` of the table `a`: its write, or nothing. */
  ghost predicate Effect(a: Table<Record>, b: Table<Record>, id: string, op: Op) {
    && id in a
    && if Decide(op, a[id].body).Write? then IsWrite(a, b, id, op) else b == a
  }

  /** From `t0`, other clients led to a table `a` in which `op` was decided and applied, all at once. */
  ghost predicate ActedOn(t0: Table<Record>, t: Table<Record>, id: string, op: Op, threw: bool) {
    exists a: Table<Record> :: OthersOnly(t0, a) && Effect(a, t, id, op) && threw == Decide(op, a[id].body).Reject?
  }

  /** The same for an operation that looks its delegation up. */
  ghost predicate Acted(t0: Table<Record>, t: Table<Record>, which: Locator, op: Op, outcome: Outcome) {
    match outcome
    case Missing => OthersOnly(t0, t) && forall id :: id in t ==> !Names(which, id, t[id].body)
    case _ => exists id :: id in t && Names(which, id, t[id].body) && ActedOn(t0, t, id, op, outcome.Threw?)
                           && (outcome.Returned? ==> outcome.id == id && outcome.record == t[id].body)
  }

  /** The delegation acted on is the only one of that id, with that child session, or with that call. */
  lemma ActedOnTheOne(t0: Table<Record>, t: Table<Record>, which: Locator, op: Op, outcome: Outcome)
    requires TableInv(t) && Acted(t0, t, which, op, outcome) && outcome.Returned?
    ensures outcome.id in t && outcome.record == t[outcome.id].body
    ensures match which
            case ById(id) => outcome.id == id
            case ByChild(child) =>
              forall a :: a in t ==> (t[a].body.childSessionId == child <==> a == outcome.id)
            case ByCall(callId) =>
              forall a, i :: a in t && 0 <= i < |t[a].body.calls| && t[a].body.calls[i].callId == callId ==>
                a == outcome.id
  {
    hide Shape, EventIdsDistinct, LiveUnique, ActedOn;
    if which.ByCall? {
      forall a, i | a in t && 0 <= i < |t[a].body.calls| && t[a].body.calls[i].callId == which.callId
        ensures a == outcome.id
      {
        assert HasCall(t[a].body, which.callId) && HasCall(t[outcome.id].body, which.callId);
      }
    }
  }

  /** A record read earlier: if its revision is still current, it is still the stored record. */
  ghost predicate ReadEarlier(t: Table<Record>, id: string, seen: Versioned<Record>) {
    && id in t && seen.revision <= t[id].revision && (seen.revision == t[id].revision ==> seen == t[id])
    && Evolves(seen.body, t[id].body)
  }

  lemma StillReadEarlier(t: Table<Record>, t': Table<Record>, id: string, seen: Versioned<Record>)
    requires ReadEarlier(t, id, seen) && Grows(t, t')
    ensures ReadEarlier(t', id, seen)
  {
    EvolvesTransitive(seen.body, t[id].body, t'[id].body);
    hide Evolves;
  }

  lemma JustRead(t: Table<Record>, id: string)
    requires id in t
    ensures ReadEarlier(t, id, t[id])
  {
    EvolvesReflexive(t[id].body);
  }

  /** The ids `op` brings in are this client's next `used` ones. */
  ghost predicate OwnIdsOf(op: Op, minted: nat, used: nat) {
    forall x :: x in NewCalls(op) + NewEvents(op) ==> exists k: nat :: minted <= k < minted + used && x == OwnId(k)
  }

  lemma OwnIdsAreMinted(t: Table<Record>, op: Op, minted: nat, used: nat)
    requires OwnIdsUnused(t, minted) && OwnIdsOf(op, minted, used)
    ensures Minted(t, op)
  {
    hide HasCall, RecordUsesEvent, OwnId;
    forall x | x in NewCalls(op) + NewEvents(op) ensures Unused(t, x) {
    }
    if op.Append? {
      assert op.callId in NewCalls(op) + NewEvents(op);
    }
    if op.Activate? {
      assert op.inputEventId in NewCalls(op) + NewEvents(op);
      assert op.commandEventId in NewCalls(op) + NewEvents(op);
    }
  }

  lemma OwnIdsDiffer(j: nat, k: nat)
    ensures OwnId(j) == OwnId(k) ==> j == k
  {
    assert |OwnId(j)| == j + 1;
  }

  lemma BroughtIsEarly(op: Op, minted: nat, used: nat, k: nat)
    requires OwnIdsOf(op, minted, used) && OwnId(k) in NewCalls(op) + NewEvents(op)
    ensures k < minted + used
  {
    hide OwnId, NewCalls, NewEvents;
    var j: nat :| minted <= j < minted + used && OwnId(k) == OwnId(j);
    OwnIdsDiffer(j, k);
  }

  lemma LaterIdsStayUnused(t: Table<Record>, t': Table<Record>, id: string, op: Op, minted: nat, used: nat)
    requires TableInv(t) && OwnIdsUnused(t, minted) && OwnIdsOf(op, minted, used) && IsWrite(t, t', id, op)
    ensures OwnIdsUnused(t', minted + used)
  {
    WriteFacts(t, id, op);
    hide Shape, Decide, HasCall, RecordUsesEvent, EventsOfCallsDistinct, TableInv, Evolves, FreshFor, NewCalls,
         NewEvents, OwnId, OwnIdsOf;
    forall k: nat | k >= minted + used ensures Unused(t', OwnId(k)) {
      assert Unused(t, OwnId(k));
      if OwnId(k) in NewCalls(op) + NewEvents(op) {
        BroughtIsEarly(op, minted, used, k);
      }
    }
  }

  /** A compare-and-set computed from a record read earlier fails exactly when the record has moved on, and is never
      refused. */
  lemma AttemptVerdict(t: Table<Record>, id: string, seen: Versioned<Record>, next: Record, op: Op)
    requires TableInv(t) && ReadEarlier(t, id, seen) && Minted(t, op) && Decide(op, seen.body) == Write(next)
    ensures var v, after := CasVerdict(t, SameKey, id, seen.revision, Versioned(seen.revision + 1, next)),
                            CasTable(t, SameKey, id, seen.revision, Versioned(seen.revision + 1, next));
            && v == (if seen.revision == t[id].revision then Swapped else Stale)
            && (v == Stale ==> after == t)
            && (v == Swapped ==> t[id] == seen && IsWrite(t, after, id, op) && after[id].body == next)
  {
    hide Decide, Minted, TableInv, Evolves, SameKey;
    if seen.revision == t[id].revision {
      AttemptKeepsKey(t, id, op);
    }
  }

  lemma AttemptKeepsKey(t: Table<Record>, id: string, op: Op)
    requires TableInv(t) && id in t && Minted(t, op) && Decide(op, t[id].body).Write?
    ensures SameKey(t[id].body, Decide(op, t[id].body).next)
  {
    WriteFacts(t, id, op);
    hide Decide, Minted, TableInv, Shape, HasCall, RecordUsesEvent, EventsOfCallsDistinct;
  }

  lemma AttemptLands(t0: Table<Record>, t: Table<Record>, t': Table<Record>, id: string, op: Op, minted: nat, used: nat)
    requires StoreInv(t, minted) && Grows(t0, t) && OwnIdsOf(op, minted, used) && IsWrite(t, t', id, op)
    ensures StoreInv(t', minted + used) && Grows(t0, t')
  {
    WriteKeeps(t, t', id, op);
    LaterIdsStayUnused(t, t', id, op, minted, used);
    GrowsTransitive(t0, t, t');
    hide Decide, Minted, TableInv, OwnIdsUnused, OwnIdsOf, Grows;
  }

  /** The compare-and-set of an operation decided on a record read earlier. It succeeds exactly when that record is
      still current, and then the operation is applied to the record as it is stored. */
  method Attempt(store: DelegationStore, id: string, seen: Versioned<Record>, next: Record, used: nat,
                 ghost op: Op, ghost t0: Table<Record>) returns (swapped: bool)
    requires store.Valid() && Grows(t0, store.table) && ReadEarlier(store.table, id, seen)
    requires Decide(op, seen.body) == Write(next) && OwnIdsOf(op, store.minted, used)
    modifies store`table, store`minted
    ensures store.Valid() && Grows(t0, store.table)
    ensures swapped ==> IsWrite(old(store.table), store.table, id, op) && old(store.table)[id] == seen
                        && store.table[id].body == next
    ensures !swapped ==> store.table == old(store.table) && store.minted == old(store.minted)
    ensures swapped <==> id in old(store.table) && old(store.table)[id].revision == seen.revision
  {
    ghost var t, minted := store.table, store.minted;
    hide Decide, Minted, TableInv, OwnIdsUnused, OwnIdsOf, Grows, Effect, IsWrite, CasVerdict, CasTable;
    OwnIdsAreMinted(t, op, minted, used);
    AttemptVerdict(t, id, seen, next, op);
    var outcome := store.CompareAndSet(id, seen.revision, Versioned(seen.revision + 1, next));
    swapped := outcome == Swapped;
    if swapped {
      store.minted := store.minted + used;
      AttemptLands(t0, t, store.table, id, op, minted, used);
    }
  }

  // ---------- The manager's loops ----------

  /** Let other clients run, keeping account of what was read before. */
  method Yield(store: DelegationStore, ghost t0: Table<Record>)
    requires store.Valid() && OthersOnly(t0, store.table) && Grows(t0, store.table)
    modifies store`table, store`schedule
    ensures store.Valid() && OthersOnly(t0, store.table) && Grows(t0, store.table)
    ensures Grows(old(store.table), store.table)
    ensures store.Pending() <= old(store.Pending())
    ensures store.table != old(store.table) ==> store.Pending() < old(store.Pending())
  {
    hide TableInv, Grows, OwnIdsUnused, AtomicStep, BatchSize;
    ghost var before := store.table;
    store.Await();
    ghost var n: nat :| Ran(before, store.table, n) && store.Pending() + n <= old(store.Pending());
    RanKeeps(before, store.table, n);
    OthersOnlyConcat(t0, before, store.table);
    GrowsTransitive(t0, before, store.table);
  }

  /** The same, holding a record read before. */
  method YieldHolding(store: DelegationStore, id: string, seen: Versioned<Record>, ghost t0: Table<Record>)
    requires store.Valid() && OthersOnly(t0, store.table) && Grows(t0, store.table)
    requires ReadEarlier(store.table, id, seen)
    modifies store`table, store`schedule
    ensures store.Valid() && OthersOnly(t0, store.table) && Grows(t0, store.table)
    ensures ReadEarlier(store.table, id, seen)
    ensures store.Pending() <= old(store.Pending())
    ensures old(store.table)[id] == seen && store.table[id].revision != seen.revision ==>
              store.Pending() < old(store.Pending())
  {
    ghost var before := store.table;
    Yield(store, t0);
    StillReadEarlier(before, store.table, id, seen);
  }

  lemma Lands(t0: Table<Record>, a: Table<Record>, t: Table<Record>, which: Locator, id: string, op: Op)
    requires TableInv(a) && OthersOnly(t0, a) && id in a && Names(which, id, a[id].body) && IsWrite(a, t, id, op)
    ensures Acted(t0, t, which, op, Returned(id, t[id].body))
  {
    hide OthersOnly, Decide, TableInv, Names, Minted, HasCall, RecordUsesEvent, Shape, Evolves, FreshFor,
         EventsOfCallsDistinct, NewCalls, NewEvents;
    WriteFacts(a, id, op);
    StillNamed(which, id, a[id].body, t[id].body);
    assert Effect(a, t, id, op);
    assert ActedOn(t0, t, id, op, false);
  }

  lemma NoneNamed(t0: Table<Record>, t: Table<Record>, which: Locator, op: Op)
    requires OthersOnly(t0, t) && forall id :: id in t ==> !Names(which, id, t[id].body)
    ensures Acted(t0, t, which, op, Missing)
  {
    hide OthersOnly, Names;
  }

  lemma DecidedNotToWrite(t0: Table<Record>, t: Table<Record>, which: Locator, id: string, op: Op)
    requires OthersOnly(t0, t) && id in t && Names(which, id, t[id].body) && !Decide(op, t[id].body).Write?
    ensures Acted(t0, t, which, op, if Decide(op, t[id].body).Reject? then Threw else Returned(id, t[id].body))
  {
    hide Decide, OthersOnly, Names;
    assert ActedOn(t0, t, id, op, Decide(op, t[id].body).Reject?);
  }

  /** Write what was decided on the record just read, unless another client gets in first. */
  method TryWrite(store: DelegationStore, which: Locator, id: string, seen: Versioned<Record>, next: Record, used: nat,
                  ghost op: Op, ghost t0: Table<Record>) returns (swapped: bool)
    requires store.Valid() && OthersOnly(t0, store.table) && Grows(t0, store.table)
    requires id in store.table && seen == store.table[id] && Names(which, id, seen.body)
    requires Decide(op, seen.body) == Write(next) && OwnIdsOf(op, store.minted, used)
    modifies store
    ensures store.Valid() && Grows(t0, store.table)
    ensures swapped ==> Acted(t0, store.table, which, op, Returned(id, next))
    ensures !swapped ==>
              OthersOnly(t0, store.table) && store.minted == old(store.minted) && store.Pending() < old(store.Pending())
  {
    hide OthersOnly, Grows, OwnIdsUnused, TableInv, Evolves, OwnIdsOf, Decide, Minted, Names, IsWrite, Acted, BatchSize;
    JustRead(store.table, id);
    YieldHolding(store, id, seen, t0);
    ghost var a := store.table;
    swapped := Attempt(store, id, seen, next, used, op, t0);
    if swapped {
      Lands(t0, a, store.table, which, id, op);
    }
  }

  /** The loop of `acknowledgeCommand`, `updateByChildSession` (under `completeTurn` and `failTurn`),
      `closeForTerminal`, `registerAwait`, `markAwaitResponded`, the opening loop and `dispatchNextOnce`: read, decide,
      compare-and-set, and start over when another client got in between. `used` own ids go into the write. */
  method Apply(store: DelegationStore, which: Locator, op: Op, used: nat) returns (outcome: Outcome)
    requires store.Valid() && OwnIdsOf(op, store.minted, used)
    modifies store
    ensures store.Valid() && Grows(old(store.table), store.table)
    ensures Acted(old(store.table), store.table, which, op, outcome)
  {
    ghost var t0 := store.table;
    OthersOnlyNone(t0);
    GrowsReflexive(t0);
    hide *;
    while true
      invariant store.Valid() && OthersOnly(t0, store.table) && Grows(t0, store.table)
      invariant store.minted == old(store.minted)
      decreases store.Pending()
    {
      Yield(store, t0);
      var found := store.Find(which);
      if found.None? {
        NoneNamed(t0, store.table, which, op);
        return Missing;
      }
      var id, seen := found.value, store.table[found.value];
      var decision := Decide(op, seen.body);
      if !decision.Write? {
        DecidedNotToWrite(t0, store.table, which, id, op);
        return if decision.Reject? then Threw else Returned(id, seen.body);
      }
      var swapped := TryWrite(store, which, id, seen, decision.next, used, op, t0);
      if swapped {
        return Returned(id, decision.next);
      }
    }
  }

  lemma OwnActivateIds(minted: nat, childTurnSeq: nat)
    ensures OwnIdsOf(Activate(childTurnSeq, OwnId(minted), OwnId(minted + 1)), minted, 2)
  {
    hide OwnId;
  }

  /** In a well-shaped record an active call is found by its id and carries its dispatch. */
  lemma ActiveIsDispatched(d: Record)
    requires Shape(d) && d.activeCallId.Some?
    ensures ActiveIndex(d) < |d.calls| && d.calls[ActiveIndex(d)].dispatch.Some?
    ensures d.status == Open
  {
    var k: nat :| OpenAt(d, k);
    ActiveIsIndexed(d, k);
  }

  lemma StoredShape(t: Table<Record>, minted: nat, id: string)
    requires StoreInv(t, minted) && id in t
    ensures Shape(t[id].body)
  {
    hide Shape, OwnIdsUnused;
  }

  /** `dispatchNextOnce` up to handing the call to its child session: the active call, activated now if none was, and
      nothing once its command has been accepted. */
  method DispatchNextOnce(store: DelegationStore, id: string, childTurnSeq: nat)
    returns (outcome: Outcome, handed: Option<Call>)
    requires store.Valid()
    modifies store
    ensures store.Valid() && Grows(old(store.table), store.table)
    ensures handed.Some? ==>
              && id in store.table && store.table[id].body.status == Open
              && store.table[id].body.activeCallId == Some(handed.value.callId)
              && handed.value in store.table[id].body.calls
              && handed.value.dispatch.Some? && !handed.value.dispatch.value.accepted
    ensures !outcome.Threw?
    ensures outcome.Returned? ==> (handed.None? <==> forall k: nat :: !IsDue(outcome.record, k))
    ensures outcome.Returned? && handed.Some? ==>
              forall k: nat :: IsDue(outcome.record, k) ==> outcome.record.calls[k] == handed.value
    ensures Acted(old(store.table), store.table, ById(id),
                  Activate(childTurnSeq, OwnId(old(store.minted)), OwnId(old(store.minted) + 1)), outcome)
  {
    hide OwnId, Acted, Grows, OwnIdsOf, StoreInv, Shape, Names, Decide, OthersOnly, IsDue, ActiveIndex;
    OwnActivateIds(store.minted, childTurnSeq);
    var op := Activate(childTurnSeq, OwnId(store.minted), OwnId(store.minted + 1));
    outcome := Apply(store, ById(id), op, 2);
    ActivationNeverThrows(old(store.table), store.table, id, op, outcome);
    handed := None;
    if outcome.Returned? {
      ReturnedIsStored(old(store.table), store.table, id, op, outcome);
      var d := outcome.record;
      StoredShape(store.table, store.minted, id);
      ActivationIsDone(d, op);
      if d.activeCallId.Some? {
        ActiveIsDispatched(d);
        ActiveDue(d);
        var call := d.calls[ActiveIndex(d)];
        if !call.dispatch.value.accepted {
          handed := Some(call);
        }
      }
    }
  }

  /** Whether it was written or not, there is nothing left to activate. */
  lemma ActivationNeverThrows(t0: Table<Record>, t: Table<Record>, id: string, op: Op, outcome: Outcome)
    requires Acted(t0, t, ById(id), op, outcome) && op.Activate?
    ensures !outcome.Threw?
    ensures outcome.Returned? ==> !Decide(op, outcome.record).Write?
  {
    hide OthersOnly, Minted, NextQueued, Decide;
    if !outcome.Missing? {
      assert ActedOn(t0, t, id, op, outcome.Threw?);
      var a: Table<Record> :| OthersOnly(t0, a) && Effect(a, t, id, op)
                               && outcome.Threw? == Decide(op, a[id].body).Reject?;
      ActivatesOnce(a[id].body, op);
    }
  }

  lemma ActivatesOnce(d: Record, op: Op)
    requires op.Activate?
    ensures !Decide(op, d).Reject?
    ensures Decide(op, d).Write? ==> !Decide(op, Decide(op, d).next).Write?
  {
    if Decide(op, d).Write? {
      var d' := Decide(op, d).next;
      var k := NextQueued(d.calls).value;
      assert d'.calls[k].callId == d.calls[k].callId == d'.activeCallId.value;
    }
  }

  /** With nothing left to activate, only an active call can be due. */
  lemma ActivationIsDone(d: Record, op: Op)
    requires Shape(d) && op.Activate? && !Decide(op, d).Write?
    ensures d.activeCallId.None? ==> forall k: nat :: !IsDue(d, k)
  {
    if d.activeCallId.None? && d.status == Open {
      NoneActiveDue(d);
    }
  }

  lemma ReturnedIsStored(t0: Table<Record>, t: Table<Record>, id: string, op: Op, outcome: Outcome)
    requires Acted(t0, t, ById(id), op, outcome) && outcome.Returned?
    ensures id in t && outcome.record == t[id].body
  {
    hide ActedOn;
  }

  // ---------- Appending a call ----------

  datatype AppendOutcome =
    | AppendThrew
    | Appended(record: Record)
    | AlreadyThere(record: Record, index: nat)

  predicate HasCallerKey(c: Call, turnSeq: nat, requestId: string) {
    c.callerTurnSeq == turnSeq && c.callerRequestId == requestId
  }

  /** A record that turns the append down: it takes no such call, or has one under the caller key with another input. */
  predicate Refuses(d: Record, turnSeq: nat, requestId: string, input: string) {
    || !Takes(d, input)
    || exists i :: 0 <= i < |d.calls| && d.calls[i].callerTurnSeq == turnSeq
                   && d.calls[i].callerRequestId == requestId && d.calls[i].input != input
  }

  /** At some moment since `t0` the stored record turned the append down. */
  ghost predicate RefusedSince(t0: Table<Record>, t: Table<Record>, id: string, turnSeq: nat, requestId: string,
                               input: string) {
    exists a: Table<Record> ::
      OthersOnly(t0, a) && OthersOnly(a, t) && id in a && Refuses(a[id].body, turnSeq, requestId, input)
  }

  /** A throw changes nothing, and happens only if the record `seen` at the start takes no such call or the stored one
      turned it down at some moment since; an append adds one call with a fresh id at one moment; a call found under the
      same caller key is returned only if it was made with the same input. */
  ghost predicate AppendActed(t0: Table<Record>, t: Table<Record>, id: string, seen: Record, turnSeq: nat,
                              requestId: string, input: string, outcome: AppendOutcome) {
    match outcome
    case AppendThrew =>
      OthersOnly(t0, t) && (!Takes(seen, input) || RefusedSince(t0, t, id, turnSeq, requestId, input))
    case Appended(d) =>
      exists a: Table<Record>, callId ::
        OthersOnly(t0, a) && IsWrite(a, t, id, Append(callId, turnSeq, requestId, input)) && d == t[id].body
    case AlreadyThere(d, i) =>
      && OthersOnly(t0, t) && id in t && d == t[id].body
      && i < |d.calls| && d.calls[i].callerTurnSeq == turnSeq && d.calls[i].callerRequestId == requestId
      && d.calls[i].input == input
  }

  /** What happened since `a`, starting from the record stored in it, happened since `t0`, whatever was seen before. */
  lemma ActedSinceEarlier(t0: Table<Record>, a: Table<Record>, t: Table<Record>, id: string, seen: Record, turnSeq: nat,
                          requestId: string, input: string, outcome: AppendOutcome)
    requires OthersOnly(t0, a) && id in a
    requires AppendActed(a, t, id, a[id].body, turnSeq, requestId, input, outcome)
    ensures AppendActed(t0, t, id, seen, turnSeq, requestId, input, outcome)
  {
    hide OthersOnly, Decide, Minted, Takes;
    match outcome
    case AppendThrew =>
      OthersOnlyConcat(t0, a, t);
      if Takes(a[id].body, input) {
        var b: Table<Record> :|
          OthersOnly(a, b) && OthersOnly(b, t) && id in b && Refuses(b[id].body, turnSeq, requestId, input);
        OthersOnlyConcat(t0, a, b);
      }
    case Appended(d) =>
      var b: Table<Record>, callId :|
        OthersOnly(a, b) && IsWrite(b, t, id, Append(callId, turnSeq, requestId, input)) && d == t[id].body;
      OthersOnlyConcat(t0, a, b);
    case AlreadyThere(_, _) =>
      OthersOnlyConcat(t0, a, t);
  }

  lemma RefusedNow(t0: Table<Record>, t: Table<Record>, id: string, turnSeq: nat, requestId: string, input: string)
    requires OthersOnly(t0, t) && id in t && Refuses(t[id].body, turnSeq, requestId, input)
    ensures RefusedSince(t0, t, id, turnSeq, requestId, input)
  {
    OthersOnlyNone(t);
    hide OthersOnly, Refuses;
  }

  lemma AppendLanded(t0: Table<Record>, a: Table<Record>, t: Table<Record>, id: string, op: Op)
    requires OthersOnly(t0, a) && op.Append? && IsWrite(a, t, id, op)
    ensures forall seen :: AppendActed(t0, t, id, seen, op.turnSeq, op.requestId, op.input, Appended(t[id].body))
  {
    hide OthersOnly, Decide, Minted;
    assert IsWrite(a, t, id, Append(op.callId, op.turnSeq, op.requestId, op.input));
  }

  lemma OwnAppendIds(minted: nat, turnSeq: nat, requestId: string, input: string)
    ensures OwnIdsOf(Append(OwnId(minted), turnSeq, requestId, input), minted, 1)
  {
  }

  lemma RecordStays(t: Table<Record>, t': Table<Record>, id: string)
    requires id in t && Grows(t, t')
    ensures id in t'
  {
  }

  /** `appendCall`, given a delegation read at some earlier moment. */
  method AppendCall(store: DelegationStore, id: string, seen: Versioned<Record>, turnSeq: nat, requestId: string,
                    input: string,
                    ghost t0: Table<Record>)
    returns (outcome: AppendOutcome)
    requires store.Valid() && OthersOnly(t0, store.table) && Grows(t0, store.table)
    requires ReadEarlier(store.table, id, seen)
    modifies store
    ensures store.Valid() && Grows(t0, store.table)
    ensures AppendActed(t0, store.table, id, seen.body, turnSeq, requestId, input, outcome)
    decreases store.Pending(), if store.table[id] == seen then 0 else 1, 0
  {
    hide Grows, Decide, BatchSize, OwnId, OwnIdsUnused, TableInv, OthersOnly, IsWrite, Evolves, OwnIdsOf;
    var op := Append(OwnId(store.minted), turnSeq, requestId, input);
    var decision := Decide(op, seen.body);
    TakesOrRefuses(seen.body, op);
    if !decision.Write? {
      return AppendThrew;
    }
    OwnAppendIds(store.minted, turnSeq, requestId, input);
    YieldHolding(store, id, seen, t0);
    ghost var a := store.table;
    var swapped := Attempt(store, id, seen, decision.next, 1, op, t0);
    if swapped {
      AppendLanded(t0, a, store.table, id, op);
      return Appended(decision.next);
    }
    Yield(store, t0);
    RecordStays(a, store.table, id);
    outcome := AppendAgain(store, id, turnSeq, requestId, input, t0, seen.body);
  }

  /** After another client got in: look for the caller key, else append to the latest record. */
  method AppendAgain(store: DelegationStore, id: string, turnSeq: nat, requestId: string, input: string,
                     ghost t0: Table<Record>, ghost seen: Record)
    returns (outcome: AppendOutcome)
    requires store.Valid() && OthersOnly(t0, store.table) && Grows(t0, store.table) && id in store.table
    modifies store
    ensures store.Valid() && Grows(t0, store.table)
    ensures AppendActed(t0, store.table, id, seen, turnSeq, requestId, input, outcome)
    decreases store.Pending(), 0, 1
  {
    hide Grows, Decide, BatchSize, OwnId, OwnIdsUnused, TableInv, OthersOnly, IsWrite, Evolves, OwnIdsOf;
    var latest := store.table[id];
    var i := FirstIndex(latest.body.calls, (c: Call) => HasCallerKey(c, turnSeq, requestId));
    if i < |latest.body.calls| {
      if latest.body.calls[i].input == input {
        return AlreadyThere(latest.body, i);
      }
      RefusedNow(t0, store.table, id, turnSeq, requestId, input);
      return AppendThrew;
    }
    ghost var a := store.table;
    JustRead(a, id);
    OthersOnlyNone(a);
    GrowsReflexive(a);
    outcome := AppendCall(store, id, latest, turnSeq, requestId, input, a);
    ActedSinceEarlier(t0, a, store.table, id, seen, turnSeq, requestId, input, outcome);
    GrowsTransitive(t0, a, store.table);
  }
}
