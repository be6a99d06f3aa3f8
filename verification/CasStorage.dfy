/** Compare-and-set record storage. `LocalFileStorage` keeps one directory of whole-file records per record kind;
    `createX` and `compareAndSetX` run one at a time per kind (the write sequences), and a read sees one whole
    record. Clients read a record, compute a replacement and try to write it, in separate steps. */
module CasStorage {
  import opened Basics

  datatype Versioned<+B> = Versioned(revision: nat, body: B)

  type Table<B> = map<string, Versioned<B>>

  datatype CasOutcome = Swapped | Stale | Refused

  /** Why a write is (not) made: a wrong expected revision is a plain `false`, a revision that does not advance by
      one or a changed identity is an error. */
  function CasVerdict<B>(t: Table<B>, same: (B, B) -> bool, id: string, expected: nat, next: Versioned<B>): CasOutcome {
    if id !in t || t[id].revision != expected then Stale
    else if next.revision != expected + 1 || !same(t[id].body, next.body) then Refused
    else Swapped
  }

  function CasTable<B>(t: Table<B>, same: (B, B) -> bool, id: string, expected: nat, next: Versioned<B>): Table<B> {
    if CasVerdict(t, same, id, expected, next) == Swapped then t[id := next] else t
  }

  /** The ids of the stored records that a new record may not coexist with. */
  function Clashes<B>(t: Table<B>, clash: (B, B) -> bool, body: B): set<string> {
    set k | k in t && clash(t[k].body, body)
  }

  /** One directory of records. */
  class RecordFolder<B> {
    var records: Table<B>

    constructor ()
      ensures records == map[]
    {
      records := map[];
    }

    method Read(id: string) returns (found: Option<Versioned<B>>)
      ensures found == if id in records then Some(records[id]) else None
    {
      if id in records {
        found := Some(records[id]);
      } else {
        found := None;
      }
    }

    /** Either stores the record, or returns one that is already there: the one under its id if any, else one it
        clashes with. */
    method Create(id: string, record: Versioned<B>, clash: (B, B) -> bool) returns (stored: Versioned<B>, created: bool)
      modifies this
      ensures created <==> id !in old(records) && Clashes(old(records), clash, record.body) == {}
      ensures created ==> stored == record && records == old(records)[id := record]
      ensures !created ==> records == old(records)
      ensures !created && id in records ==> stored == records[id]
      ensures !created && id !in records ==>
              exists k :: k in Clashes(records, clash, record.body) && stored == records[k]
    {
      if id in records {
        return records[id], false;
      }
      var existing := Clashes(records, clash, record.body);
      if existing != {} {
        var k :| k in existing;
        return records[k], false;
      }
      records := records[id := record];
      return record, true;
    }

    method CompareAndSet(same: (B, B) -> bool, id: string, expected: nat, next: Versioned<B>)
      returns (outcome: CasOutcome)
      modifies this
      ensures outcome == CasVerdict(old(records), same, id, expected, next)
      ensures records == CasTable(old(records), same, id, expected, next)
    {
      if id !in records {
        return Stale;
      }
      var current := records[id];
      if current.revision != expected {
        return Stale;
      }
      if next.revision != expected + 1 {
        return Refused;
      }
      if !same(current.body, next.body) {
        return Refused;
      }
      records := records[id := next];
      return Swapped;
    }
  }

  // ---------- Any number of clients, interleaved ----------

  /** What a client remembers between its read and its write. */
  datatype Held<+B> = Held(id: string, seen: Versioned<B>)

  datatype State<B> = State(table: Table<B>, held: map<nat, Held<B>>)

  datatype Event<B> =
    | Created(id: string, record: Versioned<B>)
    | DidRead(client: nat, id: string)
    | Attempted(client: nat, next: Versioned<B>)
    | Forgot(client: nat)

  /** The two relations a record kind brings: which bodies agree on the immutable key, and which may not coexist. */
  datatype Kind<!B> = Kind(same: (B, B) -> bool, clash: (B, B) -> bool)

  ghost predicate Step<B(!new)>(kind: Kind<B>, s: State<B>, e: Event<B>, s': State<B>) {
    match e
    case Created(id, record) =>
      && id !in s.table && Clashes(s.table, kind.clash, record.body) == {}
      && s' == State(s.table[id := record], s.held)
    case DidRead(client, id) =>
      && id in s.table
      && s' == State(s.table, s.held[client := Held(id, s.table[id])])
    case Attempted(client, next) =>
      && client in s.held
      && var h := s.held[client];
      s' == State(CasTable(s.table, kind.same, h.id, h.seen.revision, next), s.held - {client})
    case Forgot(client) =>
      s' == State(s.table, s.held - {client})
  }

  /** Did event `e` in state `s` replace the record `id`? */
  ghost predicate Swaps<B(!new)>(kind: Kind<B>, s: State<B>, e: Event<B>, id: string) {
    && e.Attempted? && e.client in s.held
    && var h := s.held[e.client];
    h.id == id && CasVerdict(s.table, kind.same, h.id, h.seen.revision, e.next) == Swapped
  }

  /** A run: one more state than events, starting with no client mid-flight. */
  ghost predicate Run<B(!new)>(kind: Kind<B>, states: seq<State<B>>, events: seq<Event<B>>) {
    && |states| == |events| + 1
    && states[0].held == map[]
    && forall i :: 0 <= i < |events| ==> Step(kind, states[i], events[i], states[i + 1])
  }

  ghost function SwapCount<B(!new)>(kind: Kind<B>, states: seq<State<B>>, events: seq<Event<B>>, id: string, i: nat,
                                    j: nat): nat
    requires i <= j <= |events| && |states| == |events| + 1
    decreases j
  {
    if i == j then 0
    else SwapCount(kind, states, events, id, i, j - 1) + if Swaps(kind, states[j - 1], events[j - 1], id) then 1 else 0
  }

  lemma StepMovesRevision<B(!new)>(kind: Kind<B>, s: State<B>, e: Event<B>, s': State<B>, id: string)
    requires Step(kind, s, e, s') && id in s.table
    ensures id in s'.table
    ensures Swaps(kind, s, e, id) ==> s'.table[id] == e.next && e.next.revision == s.table[id].revision + 1
    ensures !Swaps(kind, s, e, id) ==> s'.table[id] == s.table[id]
  {
  }

  /** A record's revision is its revision at any earlier moment plus the writes that succeeded since; records are
      never deleted. */
  lemma {:induction false} RevisionCountsSwaps<B(!new)>(kind: Kind<B>, states: seq<State<B>>, events: seq<Event<B>>,
                                                        id: string, i: nat, j: nat)
    requires Run(kind, states, events) && i <= j <= |events| && id in states[i].table
    ensures id in states[j].table
    ensures states[j].table[id].revision == states[i].table[id].revision + SwapCount(kind, states, events, id, i, j)
    decreases j
  {
    if i < j {
      RevisionCountsSwaps(kind, states, events, id, i, j - 1);
      StepMovesRevision(kind, states[j - 1], events[j - 1], states[j], id);
    }
  }

  /** Two moments at which a record has the same revision show the same record. */
  lemma {:induction false} EqualRevisionEqualRecord<B(!new)>(kind: Kind<B>, states: seq<State<B>>,
                                                             events: seq<Event<B>>, id: string, i: nat, j: nat)
    requires Run(kind, states, events) && i <= j <= |events| && id in states[i].table
    ensures id in states[j].table
    ensures states[j].table[id].revision == states[i].table[id].revision ==> states[j].table[id] == states[i].table[id]
    decreases j
  {
    if i < j {
      EqualRevisionEqualRecord(kind, states, events, id, i, j - 1);
      RevisionCountsSwaps(kind, states, events, id, i, j - 1);
      RevisionCountsSwaps(kind, states, events, id, i, j);
      StepMovesRevision(kind, states[j - 1], events[j - 1], states[j], id);
    }
  }

  /** What a client holds is the record as it was stored at some earlier moment of the run. */
  lemma {:induction false} HeldWasStored<B(!new)>(kind: Kind<B>, states: seq<State<B>>, events: seq<Event<B>>,
                                                  client: nat, j: nat)
    returns (i: nat)
    requires Run(kind, states, events) && j <= |events| && client in states[j].held
    ensures i <= j
    ensures var h := states[j].held[client]; h.id in states[i].table && states[i].table[h.id] == h.seen
    decreases j
  {
    assert j > 0;
    assert Step(kind, states[j - 1], events[j - 1], states[j]);
    if events[j - 1].DidRead? && events[j - 1].client == client {
      i := j - 1;
    } else {
      i := HeldWasStored(kind, states, events, client, j - 1);
    }
  }

  /** No lost update: a write that succeeds replaces exactly the record its client had read. */
  lemma SwapReplacesWhatWasRead<B(!new)>(kind: Kind<B>, states: seq<State<B>>, events: seq<Event<B>>, id: string,
                                         j: nat)
    requires Run(kind, states, events) && j < |events| && Swaps(kind, states[j], events[j], id)
    ensures id in states[j].table && states[j].table[id] == states[j].held[events[j].client].seen
  {
    var i := HeldWasStored(kind, states, events, events[j].client, j);
    EqualRevisionEqualRecord(kind, states, events, id, i, j);
  }

  // ---------- Protocols: what new records and replacements look like ----------

  /** A run in which every new record is `initial`, and every write is a replacement `writes` allows for the record its
      client had read. */
  ghost predicate Obeys<B(!new)>(kind: Kind<B>, initial: B -> bool, writes: (B, B) -> bool, states: seq<State<B>>,
                                 events: seq<Event<B>>) {
    && Run(kind, states, events)
    && states[0].table == map[]
    && forall i :: 0 <= i < |events| ==> Legal(initial, writes, states[i], events[i])
  }

  ghost predicate Legal<B(!new)>(initial: B -> bool, writes: (B, B) -> bool, s: State<B>, e: Event<B>) {
    match e
    case Created(_, record) => record.revision == 1 && initial(record.body)
    case Attempted(client, next) => client in s.held ==> writes(s.held[client].seen.body, next.body)
    case _ => true
  }

  /** So each event stores one initial record, or replaces one record as `writes` allows, or changes nothing. */
  lemma EventIsAtomic<B(!new)>(kind: Kind<B>, initial: B -> bool, writes: (B, B) -> bool, states: seq<State<B>>,
                               events: seq<Event<B>>, i: nat, id: string)
    requires Obeys(kind, initial, writes, states, events) && i < |events| && id in states[i + 1].table
    ensures id !in states[i].table ==> initial(states[i + 1].table[id].body)
    ensures id in states[i].table && !Swaps(kind, states[i], events[i], id) ==>
              states[i + 1].table[id] == states[i].table[id]
    ensures id in states[i].table && Swaps(kind, states[i], events[i], id) ==>
              && writes(states[i].table[id].body, states[i + 1].table[id].body)
              && kind.same(states[i].table[id].body, states[i + 1].table[id].body)
  {
    assert Step(kind, states[i], events[i], states[i + 1]) && Legal(initial, writes, states[i], events[i]);
    if Swaps(kind, states[i], events[i], id) {
      SwapReplacesWhatWasRead(kind, states, events, id, i);
    }
  }

  /** What every initial record satisfies and every write keeps holds of all records at all times. */
  lemma {:induction false} RecordsKeep<B(!new)>(kind: Kind<B>, initial: B -> bool, writes: (B, B) -> bool,
                                                inv: B -> bool,
                                                states: seq<State<B>>, events: seq<Event<B>>, i: nat)
    requires Obeys(kind, initial, writes, states, events) && i <= |events|
    requires forall b :: initial(b) ==> inv(b)
    requires forall a, b :: inv(a) && writes(a, b) ==> inv(b)
    ensures forall id :: id in states[i].table ==> inv(states[i].table[id].body)
    decreases i
  {
    if i > 0 {
      RecordsKeep(kind, initial, writes, inv, states, events, i - 1);
      forall id | id in states[i].table ensures inv(states[i].table[id].body) {
        EventIsAtomic(kind, initial, writes, states, events, i - 1, id);
      }
    }
  }

  /** A record is related to every later version of itself by any preorder the writes respect. */
  lemma {:induction false} RecordsMove<B(!new)>(kind: Kind<B>, initial: B -> bool, writes: (B, B) -> bool,
                                                inv: B -> bool, rel: (B, B) -> bool,
                                                states: seq<State<B>>, events: seq<Event<B>>, id: string, i: nat,
                                                j: nat)
    requires Obeys(kind, initial, writes, states, events) && i <= j <= |events| && id in states[i].table
    requires forall b :: initial(b) ==> inv(b)
    requires forall a, b :: inv(a) && writes(a, b) ==> inv(b)
    requires forall b :: rel(b, b)
    requires forall a, b, c :: rel(a, b) && inv(b) && writes(b, c) ==> rel(a, c)
    ensures id in states[j].table && rel(states[i].table[id].body, states[j].table[id].body)
    decreases j
  {
    if i < j {
      RecordsMove(kind, initial, writes, inv, rel, states, events, id, i, j - 1);
      RecordsKeep(kind, initial, writes, inv, states, events, j - 1);
      StepMovesRevision(kind, states[j - 1], events[j - 1], states[j], id);
      EventIsAtomic(kind, initial, writes, states, events, j - 1, id);
    }
  }

  /** No two stored records clash, when clashing depends only on what compare-and-set keeps. */
  lemma {:induction false} RecordsApart<B(!new)>(kind: Kind<B>, initial: B -> bool, writes: (B, B) -> bool,
                                                 states: seq<State<B>>, events: seq<Event<B>>, i: nat)
    requires Obeys(kind, initial, writes, states, events) && i <= |events|
    requires forall a, b :: kind.clash(a, b) ==> kind.clash(b, a)
    requires forall a, b, c :: kind.same(a, b) && kind.clash(b, c) ==> kind.clash(a, c)
    ensures forall x, y :: x in states[i].table && y in states[i].table && x != y ==>
                             !kind.clash(states[i].table[x].body, states[i].table[y].body)
    decreases i
  {
    if i > 0 {
      RecordsApart(kind, initial, writes, states, events, i - 1);
      var s, e, s' := states[i - 1], events[i - 1], states[i];
      assert Step(kind, s, e, s');
      if e.Created? {
        forall x | x in s.table ensures !kind.clash(s.table[x].body, e.record.body) {
          assert x !in Clashes(s.table, kind.clash, e.record.body);
        }
      }
    }
  }
}
