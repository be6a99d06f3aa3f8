/** The edge worker's queue of results that central has not acknowledged, in its two stores. */
module OutboundQueue {
  import opened Basics

  datatype Item = Item(queueId: string, sessionId: string, turnSeq: nat, digest: string, kind: string, payload: string)

  predicate DistinctIds(items: seq<Item>) {
    forall i, j :: 0 <= i < j < |items| ==> items[i].queueId != items[j].queueId
  }

  predicate NoneHas(items: seq<Item>, queueId: string) {
    forall i :: 0 <= i < |items| ==> items[i].queueId != queueId
  }

  function IndexOfItem(items: seq<Item>, queueId: string): (i: nat)
    ensures i <= |items| && (i < |items| ==> items[i].queueId == queueId)
    ensures forall j :: 0 <= j < i ==> items[j].queueId != queueId
  {
    FirstIndex(items, (x: Item) => x.queueId == queueId)
  }

  /** What the in-memory store leaves: all but the first item of that id. */
  function WithoutFirst(items: seq<Item>, queueId: string): seq<Item> {
    var i := IndexOfItem(items, queueId);
    if i < |items| then items[..i] + items[i + 1..] else items
  }

  /** What the web-storage store leaves: all items but those of that id. */
  function WithoutAll(items: seq<Item>, queueId: string): seq<Item> {
    if items == [] then []
    else if items[0].queueId == queueId then WithoutAll(items[1..], queueId)
    else [items[0]] + WithoutAll(items[1..], queueId)
  }

  lemma FirstStep(items: seq<Item>, queueId: string)
    requires items != []
    ensures WithoutFirst(items, queueId) ==
            if items[0].queueId == queueId then items[1..] else [items[0]] + WithoutFirst(items[1..], queueId)
  {
  }

  /** No two items carry this id. */
  predicate AtMostOne(items: seq<Item>, queueId: string) {
    forall i, j :: 0 <= i < j < |items| && items[i].queueId == queueId ==> items[j].queueId != queueId
  }

  lemma AtMostOneStep(items: seq<Item>, queueId: string)
    requires items != []
    ensures AtMostOne(items, queueId) <==>
            if items[0].queueId == queueId then NoneHas(items[1..], queueId) else AtMostOne(items[1..], queueId)
  {
    var rest := items[1..];
    assert forall i :: 1 <= i < |items| ==> items[i] == rest[i - 1];
    assert forall i :: 0 <= i < |rest| ==> rest[i] == items[i + 1];
  }

  /** The two stores leave the same queue exactly when it holds at most one item of that id. */
  lemma {:induction false} RemovalsAgree(items: seq<Item>, queueId: string)
    ensures WithoutFirst(items, queueId) == WithoutAll(items, queueId) <==> AtMostOne(items, queueId)
  {
    if items != [] {
      FirstStep(items, queueId);
      AtMostOneStep(items, queueId);
      hide WithoutFirst, AtMostOne, NoneHas;
      if items[0].queueId == queueId {
        NothingToRemove(items[1..], queueId);
      } else {
        RemovalsAgree(items[1..], queueId);
        SameHead(items[0], WithoutFirst(items[1..], queueId), WithoutAll(items[1..], queueId));
      }
    } else {
      assert WithoutFirst(items, queueId) == [];
    }
  }

  lemma SameHead(x: Item, a: seq<Item>, b: seq<Item>)
    ensures [x] + a == [x] + b <==> a == b
  {
    assert ([x] + a)[1..] == a && ([x] + b)[1..] == b;
  }

  /** So they do not on a queue that holds one item twice. */
  lemma RemovalsDifferOnDuplicates(x: Item)
    ensures WithoutFirst([x, x], x.queueId) == [x] && WithoutAll([x, x], x.queueId) == []
  {
    assert IndexOfItem([x, x], x.queueId) == 0;
    assert [x, x][1..] == [x] && WithoutAll([x], x.queueId) == [];
  }

  /** Removal takes out exactly the items of that id, and keeps ids distinct. */
  lemma {:induction false} RemovalIsExact(items: seq<Item>, queueId: string)
    requires DistinctIds(items)
    ensures DistinctIds(WithoutAll(items, queueId))
    ensures forall x :: x in WithoutAll(items, queueId) <==> x in items && x.queueId != queueId
  {
    if items != [] {
      RemovalIsExact(items[1..], queueId);
      assert items == [items[0]] + items[1..];
      forall x | x in WithoutAll(items[1..], queueId) ensures x.queueId != items[0].queueId {
        assert x in items[1..];
      }
    }
  }

  /** Removal leaves a queue alone exactly when no item has that id. */
  lemma {:induction false} NothingToRemove(items: seq<Item>, queueId: string)
    ensures |WithoutAll(items, queueId)| <= |items|
    ensures WithoutAll(items, queueId) == items <==> NoneHas(items, queueId)
  {
    if items != [] {
      NothingToRemove(items[1..], queueId);
      assert items == [items[0]] + items[1..];
      if items[0].queueId == queueId {
        assert |WithoutAll(items, queueId)| < |items|;
        assert !NoneHas(items, queueId);
      } else {
        assert NoneHas(items, queueId) <==> NoneHas(items[1..], queueId);
        assert WithoutAll(items, queueId)[1..] == WithoutAll(items[1..], queueId);
      }
    }
  }

  lemma RemovalStep(items: seq<Item>, queueId: string, i: nat)
    requires i < |items|
    ensures WithoutAll(items[i..], queueId) ==
            (if items[i].queueId != queueId then [items[i]] else []) + WithoutAll(items[i + 1..], queueId)
  {
    assert items[i..][0] == items[i] && items[i..][1..] == items[i + 1..];
  }

  /** `InMemoryOutboundQueueStore`. */
  class InMemoryStore {
    var items: seq<Item>

    constructor ()
      ensures items == []
    {
      items := [];
    }

    method List() returns (r: seq<Item>)
      ensures r == items
    {
      return items;
    }

    method Add(item: Item)
      modifies this
      ensures items == old(items) + [item]
    {
      items := items + [item];
    }

    method Remove(queueId: string)
      modifies this
      ensures items == WithoutFirst(old(items), queueId)
    {
      var index := IndexOfItem(items, queueId);
      if index < |items| {
        items := items[..index] + items[index + 1..];
      }
    }
  }

  /** The text under the store's key: absent, something that does not parse as a list, or a list. */
  datatype Stored = Absent | Foreign | Items(items: seq<Item>)

  /** `LocalStorageOutboundQueueStore`. */
  class WebStorageStore {
    var stored: Stored

    constructor (found: Stored)
      ensures stored == found
    {
      stored := found;
    }

    function Contents(): seq<Item>
      reads this
    {
      if stored.Items? then stored.items else []
    }

    method List() returns (r: seq<Item>)
      ensures r == Contents()
    {
      return if stored.Items? then stored.items else [];
    }

    method Add(item: Item)
      modifies this
      ensures Contents() == old(Contents()) + [item] && stored.Items?
    {
      var items := List();
      Write(items + [item]);
    }

    method Remove(queueId: string)
      modifies this
      ensures Contents() == WithoutAll(old(Contents()), queueId)
      ensures Contents() == [] <==> stored.Absent?
    {
      var items := List();
      var kept: seq<Item> := [];
      for i := 0 to |items|
        invariant WithoutAll(items, queueId) == kept + WithoutAll(items[i..], queueId)
        invariant stored == old(stored)
      {
        RemovalStep(items, queueId, i);
        hide WithoutAll;
        if items[i].queueId != queueId {
          kept := kept + [items[i]];
        }
      }
      Write(kept);
    }

    /** An empty queue leaves no key behind. */
    method Write(items: seq<Item>)
      modifies this
      ensures Contents() == items && (items == [] <==> stored.Absent?)
    {
      stored := if items == [] then Absent else Items(items);
    }
  }
}
