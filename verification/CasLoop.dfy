/** The read-decide-compare-and-set loop over a record folder that other clients write to as well. Their writes land
    at every `await`; the loop is shown to act at one moment, on the record as it is stored at that moment, and to
    end. */
module CasLoop {
  import opened Basics
  import opened CasStorage

  /** What a client does with a record it read. */
  datatype Verdict<+B> = Replace(next: B) | Keep | Refuse

  /** One write by another client: also decided on the record it replaces. */
  datatype Foreign<!B> = Foreign(id: string, decide: B -> Verdict<B>)

  function Act<B>(t: Table<B>, id: string, decide: B -> Verdict<B>): Table<B> {
    if id in t && decide(t[id].body).Replace?
    then t[id := Versioned(t[id].revision + 1, decide(t[id].body).next)] else t
  }

  function ActAll<B>(t: Table<B>, writes: seq<Foreign<B>>): Table<B> {
    if writes == [] then t
    else Act(ActAll(t, writes[..|writes| - 1]), writes[|writes| - 1].id, writes[|writes| - 1].decide)
  }

  function Flat<B>(batches: seq<seq<Foreign<B>>>): seq<Foreign<B>> {
    if batches == [] then [] else Flat(batches[..|batches| - 1]) + batches[|batches| - 1]
  }

  lemma {:induction false} ActAllConcat<B>(t: Table<B>, a: seq<Foreign<B>>, b: seq<Foreign<B>>)
    ensures ActAll(t, a + b) == ActAll(ActAll(t, a), b)
    decreases |b|
  {
    if b == [] {
      assert a + b == a;
    } else {
      assert (a + b)[..|a + b| - 1] == a + b[..|b| - 1];
      ActAllConcat(t, a, b[..|b| - 1]);
    }
  }

  /** Writes never delete a record and every one of them advances the revision. */
  lemma {:induction false} RevisionTells<B>(t: Table<B>, writes: seq<Foreign<B>>, id: string)
    requires id in t
    ensures var t' := ActAll(t, writes);
            id in t' && t[id].revision <= t'[id].revision && (t[id].revision == t'[id].revision ==> t'[id] == t[id])
  {
    if writes != [] {
      RevisionTells(t, writes[..|writes| - 1], id);
    }
  }

  /** The other clients' first `k` batches of writes. */
  ghost predicate After<B>(t0: Table<B>, schedule0: seq<seq<Foreign<B>>>, k: nat, t: Table<B>,
                           schedule: seq<seq<Foreign<B>>>) {
    k <= |schedule0| && schedule == schedule0[k..] && t == ActAll(t0, Flat(schedule0[..k]))
  }

  lemma AfterNone<B>(t: Table<B>, schedule: seq<seq<Foreign<B>>>)
    ensures After(t, schedule, 0, t, schedule)
  {
    assert schedule[..0] == [];
  }

  lemma AfterOneMore<B>(t0: Table<B>, schedule0: seq<seq<Foreign<B>>>, k: nat, t: Table<B>,
                        schedule: seq<seq<Foreign<B>>>)
    requires After(t0, schedule0, k, t, schedule) && schedule != []
    ensures After(t0, schedule0, k + 1, ActAll(t, schedule[0]), schedule[1..])
  {
    var a, b := schedule0[..k], schedule0[..k + 1];
    assert b[..|b| - 1] == a && b[|b| - 1] == schedule[0];
    ActAllConcat(t0, Flat(a), schedule[0]);
  }

  datatype Outcome<+B> = Missing | Rejected | Kept(record: B) | Replaced(record: B)

  /** What a client is told, when its decision was made on the table `a`. */
  function Told<B>(a: Table<B>, id: string, decide: B -> Verdict<B>): Outcome<B> {
    if id !in a then Missing
    else match decide(a[id].body)
      case Refuse => Rejected
      case Keep => Kept(a[id].body)
      case Replace(next) => Replaced(next)
  }

  class SharedFolder<B(!new)> {
    var records: Table<B>
    var schedule: seq<seq<Foreign<B>>>

    constructor (others: seq<seq<Foreign<B>>>)
      ensures records == map[] && schedule == others
    {
      records, schedule := map[], others;
    }

    /** Other clients run. */
    method Await()
      modifies this
      ensures old(schedule) == [] ==> records == old(records) && schedule == []
      ensures old(schedule) != [] ==>
                records == ActAll(old(records), old(schedule)[0]) && schedule == old(schedule)[1..]
    {
      if schedule == [] {
        return;
      }
      var batch := schedule[0];
      schedule := schedule[1..];
      for i := 0 to |batch|
        invariant records == ActAll(old(records), batch[..i]) && schedule == old(schedule)[1..]
      {
        assert batch[..i + 1][..i] == batch[..i];
        records := Act(records, batch[i].id, batch[i].decide);
      }
      assert batch[..|batch|] == batch;
    }

    /** The loop. After some number of the other clients' batches it acts, all at once and as the last writer. */
    method Update(id: string, decide: B -> Verdict<B>) returns (outcome: Outcome<B>, ghost k: nat)
      modifies this
      ensures k <= |old(schedule)| && schedule == old(schedule)[k..]
      ensures var a := ActAll(old(records), Flat(old(schedule)[..k]));
              records == Act(a, id, decide) && outcome == Told(a, id, decide)
    {
      k := 0;
      AfterNone(records, schedule);
      while true
        invariant After(old(records), old(schedule), k, records, schedule)
        decreases |schedule|
      {
        k := Next(k, old(records), old(schedule));
        if id !in records {
          return Missing, k;
        }
        var seen := records[id];
        var verdict := decide(seen.body);
        if verdict.Refuse? {
          return Rejected, k;
        }
        if verdict.Keep? {
          return Kept(seen.body), k;
        }
        ghost var before := records;
        k := Next(k, old(records), old(schedule));
        if id in records && records[id].revision == seen.revision {
          records := records[id := Versioned(seen.revision + 1, verdict.next)];
          return Replaced(verdict.next), k;
        }
      }
    }

    /** Await, keeping count of the batches. */
    method Next(ghost k: nat, ghost t0: Table<B>, ghost schedule0: seq<seq<Foreign<B>>>) returns (ghost k': nat)
      requires After(t0, schedule0, k, records, schedule)
      modifies this
      ensures After(t0, schedule0, k', records, schedule)
      ensures |schedule| <= |old(schedule)| && (schedule != old(schedule) ==> |schedule| < |old(schedule)|)
      ensures old(schedule) == [] ==> records == old(records)
      ensures forall id :: id in old(records) ==>
                id in records && (records[id].revision == old(records)[id].revision ==> records[id] == old(records)[id])
    {
      k' := k;
      if schedule != [] {
        AfterOneMore(t0, schedule0, k, records, schedule);
        k' := k + 1;
        forall id | id in records
          ensures var t := ActAll(records, schedule[0]);
                  id in t && (t[id].revision == records[id].revision ==> t[id] == records[id])
        {
          RevisionTells(records, schedule[0], id);
        }
      }
      Await();
    }
  }
}
