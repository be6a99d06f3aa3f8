/** The client SDK's session stream: replayed history merged with live events that began arriving before the history
    was read. */
module Observe {
  import opened Basics

  datatype Event = Event(eventId: string, kind: string, payload: string)

  // ---------- What is emitted ----------

  datatype Emitted<+O> = Emitted(out: seq<O>, seen: set<string>)

  /** `emit`: an event id seen before is dropped, and so is an event with nothing to show. */
  function Emit<O>(st: Emitted<O>, e: Event, show: Event -> Option<O>): Emitted<O> {
    if e.eventId in st.seen then st
    else Emitted(st.out + (if show(e).Some? then [show(e).value] else []), st.seen + {e.eventId})
  }

  function EmitAll<O>(es: seq<Event>, show: Event -> Option<O>): Emitted<O> {
    if es == [] then Emitted([], {}) else Emit(EmitAll(es[..|es| - 1], show), es[|es| - 1], show)
  }

  function MapAll<O>(es: seq<Event>, show: Event -> Option<O>): seq<O> {
    if es == [] then []
    else MapAll(es[..|es| - 1], show) + if show(es[|es| - 1]).Some? then [show(es[|es| - 1]).value] else []
  }

  // ---------- The log and its deliveries ----------

  predicate UniqueIds(log: seq<Event>) {
    forall i, j :: 0 <= i < j < |log| ==> log[i].eventId != log[j].eventId
  }

  /** `live` delivers the log from position `from` up to `to`, in order; anything delivered may be delivered again. */
  ghost predicate Delivers(log: seq<Event>, from: nat, live: seq<Event>, to: nat)
    decreases |live|
  {
    if live == [] then from == to <= |log|
    else
      var front, last := live[..|live| - 1], live[|live| - 1];
      && to <= |log|
      && ((Delivers(log, from, front, to) && exists j :: from <= j < to && log[j] == last)
          || (from < to && Delivers(log, from, front, to - 1) && log[to - 1] == last))
  }

  lemma {:induction false} DeliveryIsForward(log: seq<Event>, from: nat, live: seq<Event>, to: nat)
    requires Delivers(log, from, live, to)
    ensures from <= to <= |log|
    decreases |live|
  {
    if live != [] {
      var front := live[..|live| - 1];
      if Delivers(log, from, front, to) {
        DeliveryIsForward(log, from, front, to);
      } else {
        DeliveryIsForward(log, from, front, to - 1);
      }
    }
  }

  function Ids(es: seq<Event>): set<string> {
    set i | 0 <= i < |es| :: es[i].eventId
  }

  /** Emitting a prefix of the log emits it as it is. */
  lemma {:induction false} EmitLog<O>(log: seq<Event>, show: Event -> Option<O>)
    requires UniqueIds(log)
    ensures EmitAll(log, show) == Emitted(MapAll(log, show), Ids(log))
  {
    if log != [] {
      var front, last := log[..|log| - 1], log[|log| - 1];
      EmitLog(front, show);
      assert log == front + [last];
      assert last.eventId !in Ids(front);
      assert Ids(log) == Ids(front) + {last.eventId};
    }
  }

  lemma EmitConcatOne<O>(a: seq<Event>, e: Event, show: Event -> Option<O>)
    ensures EmitAll(a + [e], show) == Emit(EmitAll(a, show), e, show)
  {
    assert (a + [e])[..|a + [e]| - 1] == a;
  }

  function Later(a: nat, b: nat): nat {
    if a >= b then a else b
  }

  /** The merge is exact: with a history read no earlier than the subscription, what is emitted is the mapped log
      itself up to the last event received, without gap, repetition or reordering. */
  lemma {:induction false} MergeIsExact<O>(log: seq<Event>, from: nat, read: nat, live: seq<Event>, to: nat,
                                           show: Event -> Option<O>)
    requires UniqueIds(log) && from <= read <= |log| && Delivers(log, from, live, to)
    ensures to <= |log|
    ensures var seen := log[..Later(read, to)];
            EmitAll(log[..read] + live, show) == Emitted(MapAll(seen, show), Ids(seen))
    decreases |live|
  {
    DeliveryIsForward(log, from, live, to);
    if live == [] {
      assert log[..read] + live == log[..read];
      EmitLog(log[..read], show);
    } else {
      var front, last := live[..|live| - 1], live[|live| - 1];
      assert log[..read] + live == (log[..read] + front) + [last];
      EmitConcatOne(log[..read] + front, last, show);
      if Delivers(log, from, front, to) && exists j :: from <= j < to && log[j] == last {
        MergeIsExact(log, from, read, front, to, show);
        var j :| from <= j < to && log[j] == last;
        assert log[..Later(read, to)][j] == last;
      } else {
        MergeIsExact(log, from, read, front, to - 1, show);
        NextOfLog(log, read, to, show);
      }
    }
  }

  lemma NextOfLog<O>(log: seq<Event>, read: nat, to: nat, show: Event -> Option<O>)
    requires UniqueIds(log) && read <= |log| && 0 < to <= |log|
    ensures var before, after := log[..Later(read, to - 1)], log[..Later(read, to)];
            Emit(Emitted(MapAll(before, show), Ids(before)), log[to - 1], show)
            == Emitted(MapAll(after, show), Ids(after))
  {
    var before, after := log[..Later(read, to - 1)], log[..Later(read, to)];
    if to <= read {
      assert after == before && before[to - 1] == log[to - 1];
    } else {
      assert after == before + [log[to - 1]];
      OneMoreOf(before, log[to - 1], after, show);
    }
  }

  /** Without history, the stream is the mapped log from where the subscription began. */
  lemma {:induction false} LiveOnlyIsExact<O>(log: seq<Event>, from: nat, live: seq<Event>, to: nat,
                                              show: Event -> Option<O>)
    requires UniqueIds(log) && Delivers(log, from, live, to)
    ensures from <= to <= |log| && EmitAll(live, show) == Emitted(MapAll(log[from..to], show), Ids(log[from..to]))
    decreases |live|
  {
    DeliveryIsForward(log, from, live, to);
    if live == [] {
      assert log[from..to] == [];
    } else {
      var front, last := live[..|live| - 1], live[|live| - 1];
      if Delivers(log, from, front, to) && exists j :: from <= j < to && log[j] == last {
        LiveOnlyIsExact(log, from, front, to, show);
        var j :| from <= j < to && log[j] == last;
        assert log[from..to][j - from] == last;
      } else {
        LiveOnlyIsExact(log, from, front, to - 1, show);
        OneMoreOf(log[from..to - 1], last, log[from..to], show);
      }
    }
  }

  lemma OneMoreOf<O>(before: seq<Event>, last: Event, after: seq<Event>, show: Event -> Option<O>)
    requires UniqueIds(after) && after == before + [last]
    ensures Emit(Emitted(MapAll(before, show), Ids(before)), last, show) == Emitted(MapAll(after, show), Ids(after))
  {
    assert forall i :: 0 <= i < |before| ==> before[i] == after[i];
    EmitLog(before, show);
    EmitLog(after, show);
    EmitConcatOne(before, last, show);
  }

  // ---------- The stream ----------

  /** The generator's state. `yielded` is what the consumer has taken; `history` and `live` are what has come in. */
  class Stream<O(!new)> {
    const show: Event -> Option<O>
    var ready: seq<O>
    var backlog: seq<Event>
    var seen: set<string>
    var historyFlushed: bool
    ghost var yielded: seq<O>
    ghost var history: seq<Event>
    ghost var live: seq<Event>

    ghost predicate Valid()
      reads this
    {
      && Emitted(yielded + ready, seen) == EmitAll(if historyFlushed then history + live else history, show)
      && (historyFlushed ==> backlog == [])
      && (!historyFlushed ==> backlog == live && history == [])
    }

    constructor (show: Event -> Option<O>, includeHistory: bool)
      ensures this.show == show && Valid() && historyFlushed == !includeHistory && history == [] && live == []
      ensures yielded == []
    {
      this.show := show;
      ready, backlog, seen, historyFlushed := [], [], {}, !includeHistory;
      yielded, history, live := [], [], [];
    }

    method EmitOne(e: Event, ghost before: seq<Event>)
      requires Emitted(yielded + ready, seen) == EmitAll(before, show)
      modifies this`ready, this`seen
      ensures Emitted(yielded + ready, seen) == EmitAll(before + [e], show)
    {
      EmitConcatOne(before, e, show);
      if e.eventId in seen {
        return;
      }
      seen := seen + {e.eventId};
      var mapped := show(e);
      if mapped.Some? {
        ghost var was := ready;
        ready := ready + [mapped.value];
        assert yielded + ready == (yielded + was) + [mapped.value];
      } else {
        assert (yielded + ready) + [] == yielded + ready;
      }
    }

    /** A live event arrives, before or after the history is in. */
    method OnLive(e: Event)
      requires Valid()
      modifies this
      ensures Valid() && live == old(live) + [e] && history == old(history) && historyFlushed == old(historyFlushed)
      ensures yielded == old(yielded)
    {
      live := live + [e];
      if historyFlushed {
        EmitOne(e, old(history + live));
        assert old(history + live) + [e] == history + live;
      } else {
        backlog := backlog + [e];
      }
    }

    /** The history read ends, with events or, when it failed, with none; the backlog follows it. */
    method OnHistory(events: seq<Event>)
      requires Valid() && !historyFlushed
      modifies this
      ensures Valid() && historyFlushed && history == events && live == old(live) && yielded == old(yielded)
    {
      EmitEach(events, []);
      assert [] + events == events;
      historyFlushed := true;
      history := events;
      EmitEach(backlog, events);
      backlog := [];
    }

    method EmitEach(es: seq<Event>, ghost before: seq<Event>)
      requires Emitted(yielded + ready, seen) == EmitAll(before, show)
      modifies this`ready, this`seen
      ensures Emitted(yielded + ready, seen) == EmitAll(before + es, show)
    {
      assert before + es[..0] == before;
      for i := 0 to |es|
        invariant Emitted(yielded + ready, seen) == EmitAll(before + es[..i], show)
      {
        EmitOne(es[i], before + es[..i]);
        assert (before + es[..i]) + [es[i]] == before + es[..i + 1];
      }
      assert es[..|es|] == es;
    }

    /** The consumer asks for the next event. */
    method Next() returns (event: Option<O>)
      requires Valid()
      modifies this`ready, this`yielded
      ensures Valid()
      ensures event.None? <==> old(ready) == []
      ensures event.Some? ==> old(ready) == [event.value] + ready && yielded == old(yielded) + [event.value]
      ensures event.None? ==> yielded == old(yielded) && ready == old(ready)
    {
      if ready == [] {
        return None;
      }
      event := Some(ready[0]);
      assert yielded + ready == (yielded + [ready[0]]) + ready[1..];
      yielded, ready := yielded + [ready[0]], ready[1..];
    }
  }

  /** What a stream has emitted: nothing before the history is in; without a history, because none was asked for or
      none could be read, the log from where the subscription began; else the whole log. */
  function Expected(log: seq<Event>, from: nat, read: nat, to: nat, historyFlushed: bool, hasHistory: bool): seq<Event>
    requires from <= to <= |log| && read <= |log|
  {
    if !historyFlushed then [] else if hasHistory then log[..Later(read, to)] else log[from..to]
  }

  /** However the live events fell around the history read, the consumer gets what it should of the mapped log, and
      nothing else. */
  lemma StreamRefinesLog<O(!new)>(s: Stream<O>, log: seq<Event>, from: nat, read: nat, to: nat)
    requires s.Valid() && UniqueIds(log) && Delivers(log, from, s.live, to) && from <= read <= |log|
    requires s.history == [] || s.history == log[..read]
    ensures from <= to <= |log|
    ensures s.yielded + s.ready == MapAll(Expected(log, from, read, to, s.historyFlushed, s.history != []), s.show)
  {
    DeliveryIsForward(log, from, s.live, to);
    if s.history == [] {
      LiveOnlyIsExact(log, from, s.live, to, s.show);
      assert s.history + s.live == s.live;
    } else {
      MergeIsExact(log, from, read, s.live, to, s.show);
    }
  }
}
