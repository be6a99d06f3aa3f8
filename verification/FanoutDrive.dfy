/** Driving a fan-out group to its end: start a call for each member that has none, record the calls that have ended,
    settle and deliver. A pass may die after any durable write; the next pass starts over. */
module FanoutDrive {
  import opened Basics
  import opened CasStorage
  import D = Delegation
  import M = DelegationMachine
  import opened Redrive
  import F = Fanout
  import L = CasLoop

  /** The caller key of a member's call: the parent's request, suffixed with the device. */
  function MemberKey(g: F.Group, deviceRef: string): string {
    g.parentRequestId + "#" + deviceRef
  }

  lemma MemberKeysDiffer(g: F.Group, a: string, b: string)
    requires MemberKey(g, a) == MemberKey(g, b)
    ensures a == b
  {
    var n := |g.parentRequestId + "#"|;
    assert MemberKey(g, a)[n..] == a && MemberKey(g, b)[n..] == b;
  }

  /** `longer` goes on after `shorter` with the separator and some text, and `device` begins with that text. */
  ghost predicate RunsOver(shorter: string, device: string, longer: string, rest: string) {
    exists s: string :: longer == shorter + "#" + s && device == s + "#" + rest
  }

  /** Exactly when two pairs of request and device form one caller key: if they are the same pair, or one request id is
      the other followed by `#` and a text with which the other's device ref begins. */
  lemma KeysMeetIff(request: string, device: string, request': string, device': string)
    ensures request + "#" + device == request' + "#" + device' <==>
              || (request == request' && device == device')
              || RunsOver(request, device, request', device')
              || RunsOver(request', device', request, device)
  {
    var k, k' := request + "#" + device, request' + "#" + device';
    if k == k' {
      if |request| < |request'| {
        MeetsOver(request, device, request', device');
      } else if |request'| < |request| {
        MeetsOver(request', device', request, device);
      } else {
        assert request == k[..|request|] == request' && device == k[|request| + 1..] == device';
      }
    } else {
      OverMeets(request, device, request', device');
      OverMeets(request', device', request, device);
    }
  }

  lemma MeetsOver(request: string, device: string, request': string, device': string)
    requires request + "#" + device == request' + "#" + device' && |request| < |request'|
    ensures RunsOver(request, device, request', device')
  {
    var k, m, n := request + "#" + device, |request|, |request'|;
    assert k == request' + "#" + device';
    var s := k[m + 1..n];
    assert request' == k[..n] == k[..m] + [k[m]] + s && k[..m] == request && [k[m]] == "#";
    assert device == k[m + 1..] == s + [k[n]] + k[n + 1..] && [k[n]] == "#" && k[n + 1..] == device';
  }

  lemma OverMeets(request: string, device: string, request': string, device': string)
    ensures RunsOver(request, device, request', device') ==> request + "#" + device == request' + "#" + device'
  {
    if s: string :| request' == request + "#" + s && device == s + "#" + device' {
      assert request + "#" + device == request + "#" + s + "#" + device';
    }
  }

  /** Device refs without the separator never make two requests meet. */
  lemma PlainRefsStayApart(request: string, device: string, request': string, device': string)
    requires '#' !in device && '#' !in device'
    ensures request + "#" + device == request' + "#" + device' <==> request == request' && device == device'
  {
    KeysMeetIff(request, device, request', device');
    forall s: string, x: string ensures '#' in s + "#" + x {
      assert (s + "#" + x)[|s|] == '#';
    }
  }

  // ---------- Which device a call is pinned to ----------

  /** What follows the first `#`. */
  function AfterHash(r: string): Option<string> {
    if r == "" then None else if r[0] == '#' then Some(r[1..]) else AfterHash(r[1..])
  }

  lemma {:induction false} AfterHashOfKey(request: string, device: string)
    requires '#' !in request
    ensures AfterHash(request + "#" + device) == Some(device)
  {
    var k := request + "#" + device;
    if request == "" {
      assert k == "#" + device && k[1..] == device;
    } else {
      assert k[0] == request[0] && k[1..] == request[1..] + "#" + device;
      AfterHashOfKey(request[1..], device);
    }
  }

  lemma {:induction false} NothingAfterHash(r: string)
    requires '#' !in r
    ensures AfterHash(r).None?
  {
    if r != "" {
      assert r[0] in r;
      NothingAfterHash(r[1..]);
    }
  }

  /** A call whose request id names a device behind a `#` is in a delegation pinned to that device. */
  predicate IsPinnedCall(d: D.Record, i: nat)
    requires i < |d.calls|
  {
    var device := AfterHash(d.calls[i].callerRequestId);
    device.Some? ==> IsPinnedTo(d, device.value)
  }

  ghost predicate KeysPinned(t: Table<D.Record>) {
    forall a, i: nat :: IsCallAt(t, a, i) ==> IsPinnedCall(t[a].body, i)
  }

  /** Passes for a group whose request id has no `#` of its own keep all keys pinned. */
  ghost predicate KeepsPins(t: Table<D.Record>, t': Table<D.Record>, g: F.Group) {
    '#' !in g.parentRequestId && KeysPinned(t) ==> KeysPinned(t')
  }

  lemma PinsKept(t: Table<D.Record>)
    ensures forall g :: KeepsPins(t, t, g)
  {
  }

  lemma PinsKeptOn(t: Table<D.Record>, t': Table<D.Record>, t'': Table<D.Record>, g: F.Group, g': F.Group)
    requires KeepsPins(t, t', g) && KeepsPins(t', t'', g') && g'.parentRequestId == g.parentRequestId
    ensures KeepsPins(t, t'', g)
  {
    hide KeysPinned;
  }

  /** Old calls stay pinned as they were; new ones have to be shown. */
  lemma PinnedAfter(t: Table<D.Record>, t': Table<D.Record>)
    requires KeysPinned(t) && M.Grows(t, t')
    ensures forall a, i: nat :: IsCallAt(t, a, i) ==> IsCallAt(t', a, i) && IsPinnedCall(t'[a].body, i)
  {
    hide AfterHash;
    forall a, i: nat | IsCallAt(t, a, i) ensures IsCallAt(t', a, i) && IsPinnedCall(t'[a].body, i) {
      assert D.Evolves(t[a].body, t'[a].body);
      assert D.CallEvolves(t[a].body.calls[i], t'[a].body.calls[i]);
      assert IsPinnedCall(t[a].body, i);
    }
  }

  lemma NoneBroughtKeepsPins(t: Table<D.Record>, t': Table<D.Record>)
    requires NoneBrought(t, t') && M.Grows(t, t')
    ensures KeysPinned(t) ==> KeysPinned(t')
  {
    hide M.Grows, IsPinnedCall, IsCallAt;
    if KeysPinned(t) {
      PinnedAfter(t, t');
    }
  }

  lemma StartKeepsPins(t: Table<D.Record>, t': Table<D.Record>, g: F.Group, deviceRef: string, limits: Limits)
    requires StartBrings(t, t', MemberStart(g, deviceRef, limits)) && M.Grows(t, t')
    ensures KeepsPins(t, t', g)
  {
    hide M.Grows, HasLimits, AfterHash;
    if '#' !in g.parentRequestId && KeysPinned(t) {
      PinnedAfter(t, t');
      AfterHashOfKey(g.parentRequestId, deviceRef);
    }
  }

  lemma PassKeepsPins(t: Table<D.Record>, t': Table<D.Record>, p: Pass)
    requires PassBrings(t, t', p) && M.Grows(t, t')
    ensures IsPlain(CentralPass(p)) && KeysPinned(t) ==> KeysPinned(t')
  {
    hide M.Grows, HasLimits, AfterHash;
    if IsPlain(CentralPass(p)) && KeysPinned(t) {
      PinnedAfter(t, t');
      if p.StartPass? {
        NothingAfterHash(p.start.requestId);
      }
    }
  }

  lemma KeyReachesIfPinned(t: Table<D.Record>, g: F.Group, deviceRef: string, limits: Limits)
    ensures var s := MemberStart(g, deviceRef, limits);
            KeyIsPinned(t, g, deviceRef) <==>
              KeyFree(t, s.parentSessionId, s.turnSeq, s.requestId) || KeyReaches(t, s)
  {
    hide MemberKey, KeyFree;
  }

  lemma ReachesIfPinned(d: D.Record, g: F.Group, deviceRef: string, limits: Limits)
    ensures Reaches(d, MemberStart(g, deviceRef, limits)) <==> IsPinnedTo(d, deviceRef)
  {
  }

  /** With all keys pinned, every member's call is in a delegation pinned to its device. */
  lemma MembersArePinned(t: Table<D.Record>, g: F.Group, k: nat)
    requires GroupLinked(t, g) && KeysPinned(t) && '#' !in g.parentRequestId
    requires k < |g.members| && g.members[k].callId.Some?
    ensures exists a, i: nat ::
              IsMemberCall(t, g, g.members[k], a, i) && IsPinnedTo(t[a].body, g.members[k].deviceRef)
  {
    hide F.Shape;
    var a, i: nat :| IsMemberCall(t, g, g.members[k], a, i);
    CallIsPinned(t, g, g.members[k], a, i);
  }

  lemma CallIsPinned(t: Table<D.Record>, g: F.Group, m: F.Member, a: string, i: nat)
    requires KeysPinned(t) && '#' !in g.parentRequestId && IsMemberCall(t, g, m, a, i)
    ensures IsPinnedTo(t[a].body, m.deviceRef)
  {
    AfterHashOfKey(g.parentRequestId, m.deviceRef);
    hide AfterHash;
    assert IsCallAt(t, a, i) && IsPinnedCall(t[a].body, i);
  }

  /** So the calls of two devices are in two delegations. */
  lemma DevicesAreApart(t: Table<D.Record>, g: F.Group, m: F.Member, n: F.Member, a: string, i: nat, b: string, j: nat)
    requires KeysPinned(t) && '#' !in g.parentRequestId && m.deviceRef != n.deviceRef
    requires IsMemberCall(t, g, m, a, i) && IsMemberCall(t, g, n, b, j)
    ensures a != b
  {
    CallIsPinned(t, g, m, a, i);
    CallIsPinned(t, g, n, b, j);
  }

  /** Why the key must not be taken: an ordinary call of the same turn that used the device's key without a target, with
      the group's input and delegate, is what the member's start would be answered with. */
  lemma TakenKeyIsNotPinned(t: Table<D.Record>, g: F.Group, limits: Limits)
    requires g.parentSessionId == "p" && g.parentTurnSeq == 1 && g.parentRequestId == "r" && g.delegateId == "helper"
    requires g.input == "look"
    requires t == map["d" := Versioned(1, D.NewDelegation("p", "helper", None, "c", 2, 9, 9,
                                                          D.NewCall("x", 1, 1, "r#A", "look")))]
    ensures Answers(t["d"].body, 0, MemberStart(g, "A", limits)) && !IsPinnedTo(t["d"].body, "A")
    ensures !KeyIsPinned(t, g, "A")
  {
    assert KeyAt(t["d"].body, 0, "p", 1, MemberKey(g, "A"));
    assert HasKey(t["d"].body, "p", 1, MemberKey(g, "A"));
  }

  /** Call `i` of delegation `a` is the member's: made for the group's request and the member's device, with the group's
      input, to the group's delegate. */
  predicate IsMemberCall(t: Table<D.Record>, g: F.Group, m: F.Member, a: string, i: nat) {
    && a in t && KeyAt(t[a].body, i, g.parentSessionId, g.parentTurnSeq, MemberKey(g, m.deviceRef))
    && m.callId == Some(t[a].body.calls[i].callId)
    && t[a].body.delegateId == g.delegateId && t[a].body.calls[i].input == g.input
  }

  /** The delegation is pinned to this device. */
  predicate IsPinnedTo(d: D.Record, deviceRef: string) {
    d.targetRef.GetOr("") == deviceRef
  }

  /** Delegations that are new take the group's limits. */
  ghost predicate NewOnesHave(t: Table<D.Record>, t': Table<D.Record>, limits: Limits) {
    forall a :: a in t' && a !in t ==>
      && t'[a].body.maxQueuedCalls == limits.maxQueuedCalls && t'[a].body.maxInputBytes == limits.maxInputBytes
      && t'[a].body.maxResultBytes == limits.maxResultBytes
  }

  lemma StartGivesLimits(t: Table<D.Record>, t': Table<D.Record>, g: F.Group, deviceRef: string, limits: Limits)
    requires StartBrings(t, t', MemberStart(g, deviceRef, limits)) && M.TableInv(t')
    ensures NewOnesHave(t, t', limits)
  {
    hide M.EventIdsDistinct, M.LiveUnique, M.ChildrenDistinct, Answers, Reaches;
    forall a | a in t' && a !in t ensures HasLimits(t'[a].body, MemberStart(g, deviceRef, limits)) {
      TableShape(t', a);
      assert IsCallAt(t', a, 0);
    }
  }

  lemma LimitsStay(t: Table<D.Record>, t': Table<D.Record>, t'': Table<D.Record>, limits: Limits)
    requires NewOnesHave(t, t', limits) && NoneBrought(t', t'') && M.Grows(t', t'') && M.TableInv(t'')
    ensures NewOnesHave(t, t'', limits)
  {
    hide M.EventIdsDistinct, M.LiveUnique, M.ChildrenDistinct;
    forall a | a in t'' ensures a in t' {
      TableShape(t'', a);
      assert IsCallAt(t'', a, 0);
    }
    assert forall a :: a in t' ==> D.Evolves(t'[a].body, t''[a].body);
  }

  /** The key of the device's call is not in use, or its call is in a delegation pinned to the device. */
  ghost predicate KeyIsPinned(t: Table<D.Record>, g: F.Group, deviceRef: string) {
    || KeyFree(t, g.parentSessionId, g.parentTurnSeq, MemberKey(g, deviceRef))
    || exists a, i: nat ::
         && a in t && KeyAt(t[a].body, i, g.parentSessionId, g.parentTurnSeq, MemberKey(g, deviceRef))
         && IsPinnedTo(t[a].body, deviceRef)
  }

  /** A completed member reports the result of a completed call. */
  predicate IsTrueTo(m: F.Member, c: D.Call) {
    m.status == F.Completed ==> c.status == D.Completed && m.result == Some(c.result.GetOr(""))
  }

  /** A member with a call is linked to its own stored call, and true to it. */
  ghost predicate MemberLinked(t: Table<D.Record>, g: F.Group, m: F.Member) {
    m.callId.Some? ==> exists a, i: nat :: IsMemberCall(t, g, m, a, i) && IsTrueTo(m, t[a].body.calls[i])
  }

  ghost predicate GroupLinked(t: Table<D.Record>, g: F.Group) {
    F.Shape(g) && forall k :: 0 <= k < |g.members| ==> MemberLinked(t, g, g.members[k])
  }

  ghost predicate AllLinked(t: Table<D.Record>, groups: Table<F.Group>) {
    forall id :: id in groups ==> GroupLinked(t, groups[id].body)
  }

  lemma LinkedGroup(t: Table<D.Record>, groups: Table<F.Group>, id: string)
    requires AllLinked(t, groups) && id in groups
    ensures GroupLinked(t, groups[id].body) && F.Shape(groups[id].body)
  {
    hide F.Shape, MemberLinked;
  }

  lemma LinksWith(t: Table<D.Record>, groups: Table<F.Group>, id: string, v: Versioned<F.Group>)
    requires AllLinked(t, groups) && GroupLinked(t, v.body)
    ensures AllLinked(t, groups[id := v])
  {
    hide GroupLinked;
  }

  lemma LinksStay(t: Table<D.Record>, t': Table<D.Record>, groups: Table<F.Group>)
    requires AllLinked(t, groups) && M.Grows(t, t')
    ensures AllLinked(t', groups)
  {
    hide F.Shape, M.Grows, MemberKey;
    forall id, k | id in groups && 0 <= k < |groups[id].body.members|
      ensures MemberLinked(t', groups[id].body, groups[id].body.members[k])
    {
      LinkStays(t, t', groups[id].body, groups[id].body.members[k]);
    }
  }

  lemma LinkStays(t: Table<D.Record>, t': Table<D.Record>, g: F.Group, m: F.Member)
    requires MemberLinked(t, g, m) && M.Grows(t, t')
    ensures MemberLinked(t', g, m)
  {
    hide MemberKey;
    if m.callId.Some? {
      var a, i: nat :| IsMemberCall(t, g, m, a, i) && IsTrueTo(m, t[a].body.calls[i]);
      assert D.Evolves(t[a].body, t'[a].body);
      assert D.CallEvolves(t[a].body.calls[i], t'[a].body.calls[i]);
      assert IsMemberCall(t', g, m, a, i) && IsTrueTo(m, t'[a].body.calls[i]);
    }
  }

  /** One fan-out request holds at most one call per device, over all delegations. */
  lemma OneCallPerDevice(t: Table<D.Record>, minted: nat, children: map<string, Child>, g: F.Group, x: string,
                         y: string, a: string, i: nat, b: string, j: nat)
    requires WorldInv(t, minted, children) && a in t && b in t
    requires KeyAt(t[a].body, i, g.parentSessionId, g.parentTurnSeq, MemberKey(g, x))
    requires KeyAt(t[b].body, j, g.parentSessionId, g.parentTurnSeq, MemberKey(g, y))
    ensures a == b && i == j <==> x == y
  {
    hide M.TableInv, IdsAhead, LogsBound;
    if a == b && i == j {
      MemberKeysDiffer(g, x, y);
    }
  }

  /** Two fan-out requests come to share a call exactly if they are of one parent turn and their keys meet. */
  lemma CallsMeetIff(t: Table<D.Record>, g: F.Group, h: F.Group, x: string, y: string, a: string, i: nat, b: string,
                     j: nat)
    requires KeysUnique(t) && a in t && b in t
    requires KeyAt(t[a].body, i, g.parentSessionId, g.parentTurnSeq, MemberKey(g, x))
    requires KeyAt(t[b].body, j, h.parentSessionId, h.parentTurnSeq, MemberKey(h, y))
    ensures a == b && i == j <==>
              && g.parentSessionId == h.parentSessionId && g.parentTurnSeq == h.parentTurnSeq
              && (|| (g.parentRequestId == h.parentRequestId && x == y)
                  || RunsOver(g.parentRequestId, x, h.parentRequestId, y)
                  || RunsOver(h.parentRequestId, y, g.parentRequestId, x))
  {
    KeysMeetIff(g.parentRequestId, x, h.parentRequestId, y);
    hide RunsOver;
  }

  /** Calls are told apart by their ids, so a call started for one device is no other member's. */
  lemma MemberCallIsOwn(t: Table<D.Record>, g: F.Group, deviceRef: string, a: string, i: nat)
    requires M.TableInv(t) && GroupLinked(t, g)
    requires a in t && KeyAt(t[a].body, i, g.parentSessionId, g.parentTurnSeq, MemberKey(g, deviceRef))
    ensures F.CallIsOwn(F.Attach(deviceRef, t[a].body.calls[i].callId), g)
  {
    hide F.Shape, D.Shape, M.EventIdsDistinct, M.LiveUnique, M.ChildrenDistinct, MemberKey;
    var callId := t[a].body.calls[i].callId;
    forall k | 0 <= k < |g.members| && g.members[k].callId == Some(callId) ensures g.members[k].deviceRef == deviceRef {
      var b, j: nat :| IsMemberCall(t, g, g.members[k], b, j);
      assert M.HasCall(t[a].body, callId) && M.HasCall(t[b].body, callId);
      SameCallSameIndex(t, a, i, j);
      MemberKeysDiffer(g, g.members[k].deviceRef, deviceRef);
    }
  }

  datatype PassResult = Died | NoGroup | NoParent | Done

  datatype WriteResult = WriteDied | WriteThrew | WriteKept | Wrote

  class Driver {
    const central: Central
    var groups: Table<F.Group>

    constructor (central: Central)
      requires central.Valid()
      ensures this.central == central && Valid() && groups == map[]
    {
      this.central := central;
      groups := map[];
    }

    ghost predicate Valid()
      reads this, central
    {
      central.Valid() && AllLinked(central.delegations, groups)
    }

    /** `handleFanoutTool`: a request that has a group already gets that group; else one is opened for its devices, of
        which there is at least one and none is named twice. `id` is a new UUID. */
    method OpenGroup(id: string, g: F.Group) returns (found: Option<string>)
      requires Valid() && F.IsNew(g) && id !in groups
      modifies this`groups, central`fuel
      ensures Valid()
      ensures found.Some? ==> found.value in groups && F.SameRequest(groups[found.value].body, g)
      ensures groups == old(groups)
              || (groups == old(groups)[id := Versioned(1, g)]
                  && forall x :: x in old(groups) ==> !F.SameRequest(old(groups)[x].body, g))
      ensures central.fuel <= old(central.fuel) <= central.fuel + 1
      ensures found.None? ==> groups == old(groups) && old(central.fuel) == central.fuel == 0
    {
      hide F.Shape, F.IsNew, WorldInv;
      var hits := set x | x in groups && F.SameRequest(groups[x].body, g);
      if hits != {} {
        var x :| x in hits;
        return Some(x);
      }
      assert forall x :: x in groups && F.SameRequest(groups[x].body, g) ==> x in hits;
      if central.fuel == 0 {
        return None;
      }
      F.NewGroupShape(g);
      NewGroupLinks(central.delegations, g);
      central.fuel := central.fuel - 1;
      groups := groups[id := Versioned(1, g)];
      return Some(id);
    }

    /** One compare-and-set of a group. */
    method WriteGroup(id: string, op: F.Op) returns (r: WriteResult)
      requires Valid() && id in groups
      requires F.CallIsOwn(op, groups[id].body)
      requires op.Ended? ==> exists a, i: nat :: EndsCall(central.delegations, op, a, i)
      requires op.Attach? ==> exists a, i: nat :: AttachesCall(central.delegations, groups[id].body, op, a, i)
      modifies this`groups, central`fuel
      ensures Valid() && id in groups && F.Evolves(old(groups)[id].body, groups[id].body)
      ensures groups == old(groups)[id := groups[id]]
      ensures r.Wrote? ==> F.Decide(op, old(groups)[id].body) == L.Replace(groups[id].body)
      ensures !r.Wrote? ==> groups == old(groups)
      ensures r.WriteThrew? <==> F.Decide(op, old(groups)[id].body).Refuse?
      ensures old(central.fuel) == central.fuel + if r.Wrote? then 1 else 0
      ensures r.WriteDied? ==> central.fuel == 0
      ensures r.WriteKept? <==> F.Decide(op, old(groups)[id].body).Keep?
    {
      hide F.Decide, F.Shape, F.Evolves, F.CallIsOwn, WorldInv, AttachesCall, EndsCall, GroupLinked, AllLinked;
      var g := groups[id].body;
      F.EvolvesReflexive(g);
      LinkedGroup(central.delegations, groups, id);
      var verdict := F.Decide(op, g);
      if verdict.Refuse? {
        return WriteThrew;
      }
      if verdict.Keep? {
        return WriteKept;
      }
      if central.fuel == 0 {
        return WriteDied;
      }
      InvOfWorld(central.delegations, central.minted, central.children);
      F.EveryWriteKeepsShape(op, g);
      WriteKeepsLinks(central.delegations, g, op);
      central.fuel := central.fuel - 1;
      LinksWith(central.delegations, groups, id, Versioned(groups[id].revision + 1, verdict.next));
      groups := groups[id := Versioned(groups[id].revision + 1, verdict.next)];
      return Wrote;
    }

    /** Start one member's call, attach it and dispatch its relation. */
    method TryStart(id: string, deviceRef: string, limits: Limits, mayCall: bool, paired: bool)
      returns (died: bool, threw: bool)
      requires Valid() && id in groups && limits.maxQueuedCalls >= 1
      requires HasDevice(groups[id].body, deviceRef)
      modifies this, central
      ensures Valid() && M.Grows(old(central.delegations), central.delegations)
      ensures id in groups && groups == old(groups)[id := groups[id]]
      ensures F.Evolves(old(groups)[id].body, groups[id].body)
      ensures !died && !threw ==> IsStarted(groups[id].body, deviceRef)
      ensures OthersKept(old(groups)[id].body, groups[id].body, deviceRef)
      ensures var g, g' := old(groups)[id].body, groups[id].body;
              var refused := StartRefused(old(central.delegations), MemberStart(g, deviceRef, limits), mayCall, paired);
              forall k :: WaitsToStart(g, deviceRef, k) && !died ==>
                if refused then threw && g' == g
                else IsAttached(KeyIsPinned(old(central.delegations), g, deviceRef), central.delegations,
                                central.children, g', k, threw)
      ensures NewOnesHave(old(central.delegations), central.delegations, limits)
      ensures KeepsPins(old(central.delegations), central.delegations, old(groups)[id].body)
      ensures central.fuel <= old(central.fuel) <= central.fuel + 7
      ensures (died ==> central.fuel == 0 && old(central.fuel) < 7)
    {
      hide F.Shape, F.Evolves, F.Decide, F.CallIsOwn, WorldInv, KeyMisused, KeyFree, M.Grows, SameCalls, MemberLinked,
           MemberKey, IsStarted, AttachesCall, StartRefused, MustThrow, LeftDispatched, WaitsToStart, IsAttached,
           StartBrings,
           NewOnesHave, M.TableInv, KeysPinned, KeyReaches, KeyIsPinned, NoneBrought, IsPinnedTo, Reaches;
      PinsKept(central.delegations);
      var g := groups[id].body;
      F.EvolvesReflexive(g);
      var s := MemberStart(g, deviceRef, limits);
      ghost var t := central.delegations;
      var started := central.StartCall(s, mayCall, paired);
      LinksStay(t, central.delegations, groups);
      StartKeepsPins(t, central.delegations, g, deviceRef, limits);
      InvOfWorld(central.delegations, central.minted, central.children);
      StartGivesLimits(t, central.delegations, g, deviceRef, limits);
      KeyReachesIfPinned(t, g, deviceRef, limits);
      if !started.Started? {
        return started.StartCrashed?, started.StartThrew?;
      }
      var a, i := started.id, started.index;
      ReachesIfPinned(central.delegations[a].body, g, deviceRef, limits);
      var op := F.Attach(deviceRef, central.delegations[a].body.calls[i].callId);
      StartedCallAttaches(central.delegations, central.minted, central.children, g, s, a, i, limits, deviceRef);
      AttachIsTaken(g, op);
      WriteKeepsOthers(g, op, deviceRef);
      var attached := WriteGroup(id, op);
      if attached.WriteDied? || attached.WriteThrew? {
        return attached.WriteDied?, attached.WriteThrew?;
      }
      AttachedIsStarted(g, groups[id].body, op);
      ghost var t' := central.delegations;
      died, threw := Dispatch(a, t);
      if !died {
        AttachedAs(t', central.delegations, central.children, g, groups[id].body, op, a, i, threw,
                   KeyIsPinned(t, g, deviceRef));
      }
      NoneBroughtKeepsPins(t', central.delegations);
      InvOfWorld(central.delegations, central.minted, central.children);
      LimitsStay(t, t', central.delegations, limits);
    }

    /** `progressRelation`: nothing while the child is missing, or is not ready for queued input. */
    method Dispatch(delegationId: string, ghost t: Table<D.Record>) returns (died: bool, threw: bool)
      requires Valid() && M.Grows(t, central.delegations)
      modifies central
      ensures NoneBrought(old(central.delegations), central.delegations)
      ensures Valid() && M.Grows(t, central.delegations) && M.Grows(old(central.delegations), central.delegations)
      ensures central.fuel <= old(central.fuel) <= central.fuel + 3
      ensures (died ==> central.fuel == 0 && old(central.fuel) < 3)
      ensures !died ==> (threw <==> MustThrow(central.delegations, central.children, delegationId))
      ensures !died ==> LeftDispatched(central.delegations, central.children, delegationId)
    {
      hide WorldInv, M.Grows, AllLinked, D.IsDue, HasInput, LogsGrow, NoneBrought;
      ghost var cs := central.children;
      SkipsRightly(central.delegations, cs, delegationId);
      ghost var t' := central.delegations;
      M.GrowsReflexive(t');
      BringsReflexive(t');
      if delegationId !in central.delegations || central.delegations[delegationId].body.status != D.Open {
        return false, false;
      }
      var d := central.delegations[delegationId].body;
      if d.childSessionId !in central.children {
        return false, false;
      }
      if D.NextQueued(d.calls).Some? && central.children[d.childSessionId].status == ChildNotReady {
        return false, false;
      }
      var handed := central.DispatchNext(delegationId);
      LinksStay(t', central.delegations, groups);
      M.GrowsTransitive(t, t', central.delegations);
      ThrowsRightly(t', cs, delegationId);
      return handed.DispatchCrashed?, handed.DispatchThrew?;
    }

    /** Whatever throws on the way fails the member. */
    method StartMember(id: string, deviceRef: string, limits: Limits, mayCall: bool, paired: bool) returns (died: bool)
      requires Valid() && id in groups && limits.maxQueuedCalls >= 1
      requires HasDevice(groups[id].body, deviceRef)
      modifies this, central
      ensures Valid() && M.Grows(old(central.delegations), central.delegations)
      ensures id in groups && groups == old(groups)[id := groups[id]]
      ensures F.Evolves(old(groups)[id].body, groups[id].body)
      ensures !died ==> IsStarted(groups[id].body, deviceRef)
      ensures OthersKept(old(groups)[id].body, groups[id].body, deviceRef)
      ensures var g, g' := old(groups)[id].body, groups[id].body;
              var refused := StartRefused(old(central.delegations), MemberStart(g, deviceRef, limits), mayCall, paired);
              forall k :: WaitsToStart(g, deviceRef, k) && !died ==>
                StartsAs(refused, KeyIsPinned(old(central.delegations), g, deviceRef), central.delegations,
                         central.children, g', k)
      ensures NewOnesHave(old(central.delegations), central.delegations, limits)
      ensures KeepsPins(old(central.delegations), central.delegations, old(groups)[id].body)
      ensures central.fuel <= old(central.fuel) <= central.fuel + 8
      ensures (died ==> central.fuel == 0 && old(central.fuel) < 8)
    {
      hide F.Shape, F.Evolves, F.Decide, F.CallIsOwn, WorldInv, M.Grows, MemberLinked, IsStarted, HasDevice,
           StartRefused, WaitsToStart, IsAttached, StartsAs, KeepsPins, KeyIsPinned,
           NewOnesHave;
      ghost var g := groups[id].body;
      var threw;
      died, threw := TryStart(id, deviceRef, limits, mayCall, paired);
      if !died && threw {
        ghost var between := groups[id].body;
        var op := F.StartupFailed(deviceRef, F.Failure("delegation_rejected", ""));
        StartupOwnsNothing(between, op);
        var failed := WriteGroup(id, op);
        F.EvolvesTransitive(g, between, groups[id].body);
        WriteKeepsOthers(between, op, deviceRef);
        died := failed.WriteDied?;
        if !died {
          DeviceStays(g, between, deviceRef);
          FailedIsEnded(between, groups[id].body, op);
          FailedAs(central.delegations, central.children, g, between, groups[id].body, op);
        }
      } else {
        AttachedStarts(central.delegations, central.children, groups[id].body);
      }
    }

    /** Record the outcome of a member whose call has ended. */
    method DeliverMember(id: string, k: nat) returns (died: bool)
      requires Valid() && id in groups && k < |groups[id].body.members|
      modifies this`groups, central`fuel
      ensures Valid() && id in groups && groups == old(groups)[id := groups[id]]
      ensures F.Evolves(old(groups)[id].body, groups[id].body)
      ensures central.fuel <= old(central.fuel) <= central.fuel + 1 && (died ==> old(central.fuel) == central.fuel == 0)
      ensures MemberKept(old(groups)[id].body, groups[id].body, k)
      ensures !died ==> TookOutcome(central.delegations, old(groups)[id].body, groups[id].body, k)
      ensures !died && old(groups)[id].body.members[k].status != F.Starting ==>
                IsSettledOrWaiting(central.delegations, groups[id].body, k)
    {
      hide F.Evolves, F.Decide, F.CallIsOwn, WorldInv, NotEnded, F.Shape, AllLinked, TookOutcome, MemberKept, EndsCall,
           IsSettledOrWaiting;
      var g := groups[id].body;
      F.EvolvesReflexive(g);
      LinkedGroup(central.delegations, groups, id);
      KeptSame(g, k);
      var m := g.members[k];
      if m.status != F.Pending || m.callId.None? {
        NotPendingOrStarting(central.delegations, g, k);
        return false;
      }
      var call := ReadCall(m.callId.value);
      if call.None? || !D.IsTerminal(call.value.status) {
        NoOutcomeYet(central.delegations, g, k);
        return false;
      }
      var op := F.Ended(m.callId.value, OutcomeOfCall(call.value));
      StartupOwnsNothing(g, op);
      ghost var a, i: nat :| a in central.delegations && i < |central.delegations[a].body.calls|
                             && central.delegations[a].body.calls[i] == call.value;
      IsItsEnd(central.delegations, op, a, i);
      EndedKeepsOthers(g, op, k);
      var written := WriteGroup(id, op);
      died := written.WriteDied?;
      if !died {
        EndedIsEnded(g, groups[id].body, op, k);
        EndedIsSettled(central.delegations, groups[id].body, k);
        OutcomeTaken(central.delegations, central.minted, central.children, g, groups[id].body, op, k, a, i);
      }
    }

    /** `readCall`. */
    method ReadCall(callId: string) returns (found: Option<D.Call>)
      requires central.Valid()
      ensures found.Some? ==>
                exists a, i: nat :: a in central.delegations && i < |central.delegations[a].body.calls|
                                    && central.delegations[a].body.calls[i] == found.value
                                    && found.value.callId == callId
      ensures found.None? || !D.IsTerminal(found.value.status) ==> NotEnded(central.delegations, callId)
    {
      var t := central.delegations;
      var hits := set a | a in t && M.HasCall(t[a].body, callId);
      if hits == {} {
        assert forall a :: a in t && M.HasCall(t[a].body, callId) ==> a in hits;
        return None;
      }
      var a :| a in hits;
      var i := D.IndexOfCall(t[a].body.calls, callId);
      OneCallDecides(t, central.minted, central.children, callId, a, i);
      return Some(t[a].body.calls[i]);
    }

    /** `progressFanoutGroup`. Unless it dies, it leaves no member waiting to start, and none pending whose call has
        ended. */
    method Progress(id: string, parentExists: bool, parentReachable: bool, limits: Limits, mayCall: bool,
                    paired: set<string>)
      returns (r: PassResult)
      requires Valid() && limits.maxQueuedCalls >= 1
      modifies this, central
      ensures Valid() && M.Grows(old(central.delegations), central.delegations)
      ensures id in old(groups) ==> id in groups && groups == old(groups)[id := groups[id]]
                                    && F.Evolves(old(groups)[id].body, groups[id].body)
      ensures id !in old(groups) ==> groups == old(groups)
      ensures r.Done? ==> id in groups && forall k :: 0 <= k < |groups[id].body.members| ==>
                IsSettledOrWaiting(central.delegations, groups[id].body, k)
      ensures id in old(groups) ==> KeepsPins(old(central.delegations), central.delegations, old(groups)[id].body)
      ensures id !in old(groups) ==> central.delegations == old(central.delegations)
      ensures r.NoGroup? <==> id !in old(groups)
      ensures r.NoParent? <==> id in old(groups) && !old(groups)[id].body.settled && !parentExists
      ensures r.Died? ==> central.fuel == 0 && old(central.fuel) < WritesNeeded(old(groups)[id].body)
      ensures r.Done? ==> forall k :: 0 <= k < |old(groups)[id].body.members| ==>
                TookOutcome(old(central.delegations), old(groups)[id].body, groups[id].body, k)
      ensures r.Done? ==>
                (groups[id].body.delivered <==>
                   old(groups)[id].body.delivered || (groups[id].body.settled && parentReachable))
      ensures r.Done? && AllEnded(old(central.delegations), old(groups)[id].body) ==>
                IsFinished(groups[id].body, parentReachable)
    {
      hide F.Shape, F.Evolves, WorldInv, M.Grows, IsSettledOrWaiting, MemberLinked, AllEnded, StartedKept, TookOutcome,
           KeysPinned,
           StartingCount, F.AggregateOf;
      M.GrowsReflexive(central.delegations);
      PinsKept(central.delegations);
      if id !in groups {
        return NoGroup;
      }
      F.EvolvesReflexive(groups[id].body);
      if !groups[id].body.settled {
        if !parentExists {
          return NoParent;
        }
        var dead := StartAll(id, limits, mayCall, paired);
        if dead {
          return Died;
        }
        NoneGoesBack(old(groups)[id].body, groups[id].body);
        ghost var between := groups[id].body;
        dead := DeliverAll(id, old(groups)[id].body);
        if dead {
          return Died;
        }
        PassTakesOutcomes(old(central.delegations), central.delegations, old(groups)[id].body, between,
                          groups[id].body);
      } else {
        SettledIsSettled(central.delegations, groups[id].body);
        SettledTookOutcomes(central.delegations, groups[id].body);
      }
      ghost var g, g' := old(groups)[id].body, groups[id].body;
      var died := DeliverResult(id, parentReachable);
      F.EvolvesTransitive(g, g', groups[id].body);
      AllStayWaiting(central.delegations, g', groups[id].body);
      TookSame(old(central.delegations), g, g', groups[id].body);
      if AllEnded(old(central.delegations), g) && !died {
        PassSettles(old(central.delegations), central.delegations, g, groups[id].body);
      }
      return if died then Died else Done;
    }

    /** `deliverFanoutResult`: a settled group is delivered once, when the parent can take the result. */
    method DeliverResult(id: string, parentReachable: bool) returns (died: bool)
      requires Valid() && id in groups
      modifies this`groups, central`fuel
      ensures Valid() && id in groups && groups == old(groups)[id := groups[id]]
      ensures F.Evolves(old(groups)[id].body, groups[id].body)
      ensures groups[id].body.members == old(groups)[id].body.members
      ensures central.fuel <= old(central.fuel) <= central.fuel + 1 && (died ==> old(central.fuel) == central.fuel == 0)
      ensures died ==> groups == old(groups)
      ensures !died ==>
                && groups[id].body.settled == old(groups)[id].body.settled
                && (groups[id].body.delivered <==>
                      old(groups)[id].body.delivered || (old(groups)[id].body.settled && parentReachable))
    {
      hide F.Evolves, WorldInv, MemberLinked, F.AggregateOf, F.DecideAttach, F.DecideOutcome, F.MemberShape, F.Apart;
      died := false;
      var g := groups[id].body;
      F.EvolvesReflexive(g);
      if g.settled && !g.delivered && g.aggregate.Some? && parentReachable {
        StartupOwnsNothing(g, F.MarkDelivered);
        var written := WriteGroup(id, F.MarkDelivered);
        died := written.WriteDied?;
      }
    }

    /** Every member still waiting to start is started or failed. */
    method StartAll(id: string, limits: Limits, mayCall: bool, paired: set<string>) returns (died: bool)
      requires Valid() && id in groups && limits.maxQueuedCalls >= 1
      modifies this, central
      ensures Valid() && M.Grows(old(central.delegations), central.delegations)
      ensures id in groups && groups == old(groups)[id := groups[id]]
      ensures F.Evolves(old(groups)[id].body, groups[id].body)
      ensures var writes := 8 * StartingCount(old(groups)[id].body.members);
              && central.fuel <= old(central.fuel) <= central.fuel + writes
              && (died ==> central.fuel == 0 && old(central.fuel) < writes)
      ensures KeepsPins(old(central.delegations), central.delegations, old(groups)[id].body)
      ensures !died ==> StartedKept(old(groups)[id].body, groups[id].body)
      ensures !died ==> forall k :: 0 <= k < |groups[id].body.members| ==>
                groups[id].body.members[k].status != F.Starting
    {
      hide F.Shape, F.Evolves, F.Decide, WorldInv, M.Grows, IsStarted, HasDevice, MemberLinked;
      M.GrowsReflexive(central.delegations);
      PinsKept(central.delegations);
      var g := groups[id].body;
      assert F.Shape(g);
      hide AllLinked, KeysPinned;
      F.EvolvesReflexive(g);
      for n := 0 to |g.members|
        invariant Valid() && M.Grows(old(central.delegations), central.delegations)
        invariant id in groups && groups == old(groups)[id := groups[id]] && F.Evolves(g, groups[id].body)
        invariant StartedKept(g, groups[id].body) && KeepsPins(old(central.delegations), central.delegations, g)
        invariant central.fuel <= old(central.fuel) <= central.fuel + 8 * StartingCount(g.members[..n])
        invariant forall k :: 0 <= k < n ==> IsStarted(groups[id].body, g.members[k].deviceRef)
      {
        ghost var before, t := groups[id].body, central.delegations;
        var deviceRef := g.members[n].deviceRef;
        MemberIsDevice(g, n);
        DeviceStays(g, before, deviceRef);
        NoneGoesBack(g, before);
        StartingCountStep(g.members, n);
        if g.members[n].status == F.Starting {
          var dead := StartMember(id, deviceRef, limits, mayCall, deviceRef in paired);
          F.EvolvesTransitive(g, before, groups[id].body);
          M.GrowsTransitive(old(central.delegations), t, central.delegations);
          PinsKeptOn(old(central.delegations), t, central.delegations, g, before);
          if dead {
            return true;
          }
          StartedStay(before, groups[id].body);
          StartKeepsStarted(g, before, groups[id].body, n);
        } else {
          AlreadyStarted(g, groups[id].body, n);
        }
      }
      assert g.members[..|g.members|] == g.members;
      AllStarted(g, groups[id].body);
      return false;
    }

    /** Every pending member whose call has ended is recorded. */
    method DeliverAll(id: string, ghost g0: F.Group) returns (died: bool)
      requires Valid() && id in groups && F.Evolves(g0, groups[id].body)
      requires forall k :: 0 <= k < |groups[id].body.members| ==> groups[id].body.members[k].status != F.Starting
      modifies this`groups, central`fuel
      ensures Valid() && id in groups && groups == old(groups)[id := groups[id]] && F.Evolves(g0, groups[id].body)
      ensures var writes := |old(groups)[id].body.members|;
              && central.fuel <= old(central.fuel) <= central.fuel + writes
              && (died ==> central.fuel == 0 && old(central.fuel) < writes)
      ensures !died ==> groups[id].body.delivered == old(groups)[id].body.delivered
      ensures !died ==> forall k :: 0 <= k < |old(groups)[id].body.members| ==>
                TookOutcome(central.delegations, old(groups)[id].body, groups[id].body, k)
      ensures !died ==> forall k :: 0 <= k < |groups[id].body.members| ==>
                IsSettledOrWaiting(central.delegations, groups[id].body, k)
    {
      hide TookOutcome, MemberKept;
      hide F.Shape, F.Evolves, F.Decide, WorldInv, IsSettledOrWaiting, MemberLinked, AllLinked;
      ghost var g := groups[id].body;
      F.EvolvesReflexive(g);
      for n := 0 to |groups[id].body.members|
        invariant Valid() && id in groups && groups == old(groups)[id := groups[id]]
        invariant F.Evolves(g, groups[id].body) && F.Evolves(g0, groups[id].body)
        invariant |groups[id].body.members| == |g.members| && groups[id].body.delivered == g.delivered
        invariant forall k :: 0 <= k < |g.members| ==> groups[id].body.members[k].status != F.Starting
        invariant forall k :: 0 <= k < n ==> TookOutcome(central.delegations, g, groups[id].body, k)
        invariant forall k :: n <= k < |g.members| ==> groups[id].body.members[k] == g.members[k]
        invariant central.fuel <= old(central.fuel) <= central.fuel + n
        invariant forall k :: 0 <= k < n ==> IsSettledOrWaiting(central.delegations, groups[id].body, k)
      {
        ghost var before := groups[id].body;
        var dead := DeliverMember(id, n);
        F.EvolvesTransitive(g, before, groups[id].body);
        F.EvolvesTransitive(g0, before, groups[id].body);
        if dead {
          return true;
        }
        NoneGoesBack(before, groups[id].body);
        OutcomesSoFar(central.delegations, g, before, groups[id].body, n);
        forall k | 0 <= k < n ensures IsSettledOrWaiting(central.delegations, groups[id].body, k) {
          StaysWaiting(central.delegations, before, groups[id].body, k);
        }
      }
      return false;
    }

    /** Any number of fan-out passes in any order with the other passes over the delegations: ordinary starts and
        dispatches, other handlers' writes and changes of child sessions. Each dies after its own number of writes. */
    method Drive(passes: seq<FanoutPass>)
      requires Valid() && forall p :: p in passes ==> Admitted(p)
      modifies this, central
      ensures Valid() && M.Grows(old(central.delegations), central.delegations)
      ensures GroupsEvolve(old(groups), groups)
      ensures ArePlain(passes) && AllPlain(old(groups)) && KeysPinned(old(central.delegations)) ==>
                AllPlain(groups) && KeysPinned(central.delegations)
    {
      hide Valid, M.Grows, F.Evolves, F.IsNew, IsPlain, AllPlain, KeysPinned, Admitted;
      M.GrowsReflexive(central.delegations);
      GroupsEvolveReflexive(groups);
      for n := 0 to |passes|
        invariant Valid() && M.Grows(old(central.delegations), central.delegations) && GroupsEvolve(old(groups), groups)
        invariant ArePlain(passes) && AllPlain(old(groups)) && KeysPinned(old(central.delegations)) ==>
                    AllPlain(groups) && KeysPinned(central.delegations)
      {
        ghost var t, gs := central.delegations, groups;
        assert passes[n] in passes;
        Refuel(WritesOf(passes[n]));
        RunPass(passes[n]);
        M.GrowsTransitive(old(central.delegations), t, central.delegations);
        GroupsEvolveTransitive(old(groups), gs, groups);
      }
    }

    method Refuel(writes: nat)
      requires Valid()
      modifies central`fuel
      ensures Valid() && central.fuel == writes
    {
      central.fuel := writes;
    }

    method RunPass(p: FanoutPass)
      requires Valid() && Admitted(p)
      modifies this, central
      ensures Valid() && M.Grows(old(central.delegations), central.delegations) && GroupsEvolve(old(groups), groups)
      ensures IsPlain(p) && AllPlain(old(groups)) && KeysPinned(old(central.delegations)) ==>
                AllPlain(groups) && KeysPinned(central.delegations)
    {
      hide F.Shape, F.Evolves, F.IsNew, WorldInv, M.Grows, IsSettledOrWaiting, MemberLinked, Admissible, LogsGrow,
           KeysPinned, PassBrings;
      GroupsEvolveReflexive(groups);
      M.GrowsReflexive(central.delegations);
      match p {
        case OpenPass(_, id, g) =>
          if id !in groups {
            var found := OpenGroup(id, g);
            GroupsEvolveReflexive(old(groups));
          }
        case ProgressPass(_, id, exists_, reachable, limits, mayCall, paired) =>
          var r := Progress(id, exists_, reachable, limits, mayCall, paired);
          if id in groups {
            NoneGoesBack(old(groups)[id].body, groups[id].body);
          }
          GroupsEvolveReflexive(old(groups));
        case CentralPass(pass) =>
          ghost var t := central.delegations;
          central.RunPass(pass);
          PassKeepsPins(t, central.delegations, pass);
          LinksStay(t, central.delegations, groups);
      }
    }
  }

  /** An attachment names the call `i` of `a`, started for its device. */
  predicate AttachesCall(t: Table<D.Record>, g: F.Group, op: F.Op, a: string, i: nat)
    requires op.Attach?
  {
    && a in t && KeyAt(t[a].body, i, g.parentSessionId, g.parentTurnSeq, MemberKey(g, op.deviceRef))
    && t[a].body.calls[i].callId == op.callId
    && t[a].body.delegateId == g.delegateId && t[a].body.calls[i].input == g.input
  }

  /** An outcome is that of the call `i` of `a`, which has ended. */
  predicate EndsCall(t: Table<D.Record>, op: F.Op, a: string, i: nat)
    requires op.Ended?
  {
    && a in t && i < |t[a].body.calls| && t[a].body.calls[i].callId == op.callId
    && D.IsTerminal(t[a].body.calls[i].status) && op.outcome == OutcomeOfCall(t[a].body.calls[i])
  }

  lemma InvOfWorld(t: Table<D.Record>, minted: nat, children: map<string, Child>)
    requires WorldInv(t, minted, children)
    ensures M.TableInv(t)
  {
    hide M.TableInv;
  }

  lemma SameCall(t: Table<D.Record>, a: string, i: nat, b: string, j: nat)
    requires M.TableInv(t) && a in t && i < |t[a].body.calls| && b in t && j < |t[b].body.calls|
    requires t[a].body.calls[i].callId == t[b].body.calls[j].callId
    ensures a == b && i == j
  {
    hide D.Shape;
    assert M.HasCall(t[a].body, t[a].body.calls[i].callId) && M.HasCall(t[b].body, t[a].body.calls[i].callId);
    SameCallSameIndex(t, a, i, j);
  }

  predicate SameParent(g: F.Group, g': F.Group) {
    && g'.parentSessionId == g.parentSessionId && g'.parentTurnSeq == g.parentTurnSeq
    && g'.parentRequestId == g.parentRequestId && g'.delegateId == g.delegateId && g'.input == g.input
  }

  /** A link is to the group's request; failing a member leaves it true to its call. */
  lemma LinkMoves(t: Table<D.Record>, g: F.Group, g': F.Group, m: F.Member, m': F.Member)
    requires SameParent(g, g') && MemberLinked(t, g, m) && m'.deviceRef == m.deviceRef && m'.callId == m.callId
    requires m' == m || m'.status != F.Completed
    ensures MemberLinked(t, g', m')
  {
    if m.callId.Some? {
      var a, i: nat :| IsMemberCall(t, g, m, a, i) && IsTrueTo(m, t[a].body.calls[i]);
      assert IsMemberCall(t, g', m', a, i) && IsTrueTo(m', t[a].body.calls[i]);
    }
  }

  /** A member's own call decides its outcome. */
  lemma LinkEnds(t: Table<D.Record>, g: F.Group, g': F.Group, m: F.Member, op: F.Op, b: string, n: nat)
    requires M.TableInv(t) && SameParent(g, g') && MemberLinked(t, g, m)
    requires op.Ended? && m.callId == Some(op.callId) && EndsCall(t, op, b, n)
    ensures MemberLinked(t, g', F.Applied(m, op.outcome))
  {
    var a, i: nat :| IsMemberCall(t, g, m, a, i) && IsTrueTo(m, t[a].body.calls[i]);
    SameCall(t, a, i, b, n) by {
      hide KeyAt;
    }
    hide M.TableInv;
    var m' := F.Applied(m, op.outcome);
    assert IsMemberCall(t, g', m', a, i) && IsTrueTo(m', t[a].body.calls[i]);
  }

  /** The start of a member links it. */
  lemma LinkBegins(t: Table<D.Record>, g: F.Group, g': F.Group, m: F.Member, op: F.Op)
    requires SameParent(g, g') && op.Attach? && m.deviceRef == op.deviceRef && m.status == F.Pending
    requires m.callId == Some(op.callId) && exists a, i: nat :: AttachesCall(t, g, op, a, i)
    ensures MemberLinked(t, g', m)
  {
    var a, i: nat :| AttachesCall(t, g, op, a, i);
    assert IsMemberCall(t, g', m, a, i) && IsTrueTo(m, t[a].body.calls[i]);
  }

  lemma WriteKeepsLinks(t: Table<D.Record>, g: F.Group, op: F.Op)
    requires M.TableInv(t) && GroupLinked(t, g) && F.CallIsOwn(op, g) && F.Decide(op, g).Replace?
    requires op.Attach? ==> exists a, i: nat :: AttachesCall(t, g, op, a, i)
    requires op.Ended? ==> exists a, i: nat :: EndsCall(t, op, a, i)
    ensures GroupLinked(t, F.Decide(op, g).next)
  {
    var g', i := F.Decide(op, g).next, F.Target(op, g);
    F.EveryWriteKeepsShape(op, g);
    if op.Attach? {
      F.AttachKeeps(op, g);
    } else if !op.MarkDelivered? {
      F.OutcomeKeeps(op, g);
    }
    hide F.Shape, F.Decide, F.CallIsOwn, M.TableInv, MemberLinked, AttachesCall, EndsCall;
    forall k | 0 <= k < |g'.members| ensures MemberLinked(t, g', g'.members[k]) {
      if op.Attach? && k == i {
        LinkBegins(t, g, g', g'.members[k], op);
      } else if op.Ended? && k == i {
        var b, n: nat :| EndsCall(t, op, b, n);
        LinkEnds(t, g, g', g.members[k], op, b, n);
      } else {
        LinkMoves(t, g, g', g.members[k], g'.members[k]);
      }
    }
  }

  datatype Limits = Limits(maxQueuedCalls: nat, maxInputBytes: nat, maxResultBytes: nat)

  function MemberStart(g: F.Group, deviceRef: string, limits: Limits): StartInput {
    StartInput(g.parentSessionId, g.delegateId, Some(deviceRef), g.parentTurnSeq, MemberKey(g, deviceRef), g.input,
               limits.maxQueuedCalls, limits.maxInputBytes, limits.maxResultBytes)
  }

  lemma StartedCallAttaches(t: Table<D.Record>, minted: nat, children: map<string, Child>, g: F.Group, s: StartInput,
                            a: string, i: nat,
                            limits: Limits, deviceRef: string)
    requires WorldInv(t, minted, children) && GroupLinked(t, g) && s == MemberStart(g, deviceRef, limits)
    requires a in t && Answers(t[a].body, i, s)
    ensures var op := F.Attach(deviceRef, t[a].body.calls[i].callId); F.CallIsOwn(op, g) && AttachesCall(t, g, op, a, i)
  {
    hide M.TableInv, GroupLinked, F.CallIsOwn, MemberKey, IdsAhead, KeysUnique, LogsBound;
    MemberCallIsOwn(t, g, deviceRef, a, i);
  }

  predicate HasDevice(g: F.Group, deviceRef: string) {
    exists k :: 0 <= k < |g.members| && g.members[k].deviceRef == deviceRef
  }

  /** The device's member is no longer waiting to start. */
  ghost predicate IsStarted(g: F.Group, deviceRef: string) {
    forall k :: 0 <= k < |g.members| && g.members[k].deviceRef == deviceRef ==> g.members[k].status != F.Starting
  }

  lemma DeviceStays(g: F.Group, g': F.Group, deviceRef: string)
    requires HasDevice(g, deviceRef) && F.Evolves(g, g')
    ensures HasDevice(g', deviceRef)
  {
    var k :| 0 <= k < |g.members| && g.members[k].deviceRef == deviceRef;
    assert |F.DeviceRefs(g.members)| == |F.DeviceRefs(g'.members)|;
    assert F.MemberEvolves(g.members[k], g'.members[k]);
  }

  /** Written or kept, after an attachment its member is no longer waiting to start. */
  lemma AttachedIsStarted(g: F.Group, g': F.Group, op: F.Op)
    requires op.Attach? && F.Shape(g) && HasDevice(g, op.deviceRef) && !F.Decide(op, g).Refuse?
    requires if F.Decide(op, g).Replace? then F.CallIsOwn(op, g) && g' == F.Decide(op, g).next else g' == g
    ensures IsStarted(g', op.deviceRef)
  {
    if F.Decide(op, g).Replace? {
      F.AttachKeeps(op, g);
    }
    hide F.AggregateOf, F.AllTerminal, F.CallIsOwn;
  }

  /** The member `k` is the device's, and waits to be started. */
  predicate WaitsToStart(g: F.Group, deviceRef: string, k: int) {
    0 <= k < |g.members| && g.members[k].deviceRef == deviceRef && g.members[k].status == F.Starting
  }

  /** The member is pending on its own call, whose delegation is pinned to the member's device or not and is dispatched
      as far as can be; something threw exactly if the call due there is stuck. */
  ghost predicate IsAttached(pinned: bool, t: Table<D.Record>, children: map<string, Child>, g: F.Group, k: int,
                             threw: bool) {
    && 0 <= k < |g.members| && g.members[k].status == F.Pending
    && exists a, i: nat ::
         && IsMemberCall(t, g, g.members[k], a, i) && LeftDispatched(t, children, a)
         && (threw <==> MustThrow(t, children, a))
         && pinned == IsPinnedTo(t[a].body, g.members[k].deviceRef)
  }

  /** How a member that waited to start comes out: if its start is refused, failed and without a call; else with its own
      call, pinned to its device or not, in a delegation dispatched as far as can be, and pending on it, or failed
      exactly because the call due there is stuck. */
  ghost predicate StartsAs(refused: bool, pinned: bool, t: Table<D.Record>, children: map<string, Child>, g: F.Group,
                           k: int) {
    && 0 <= k < |g.members|
    && var m := g.members[k];
       && (m.status == F.Failed ==> m.failure.Some? && m.failure.value.code == "delegation_rejected")
       && if refused then m.status == F.Failed && m.callId.None?
          else exists a, i: nat ::
                 && IsMemberCall(t, g, m, a, i) && pinned == IsPinnedTo(t[a].body, m.deviceRef)
                 && LeftDispatched(t, children, a)
                 && m.status == (if MustThrow(t, children, a) then F.Failed else F.Pending)
  }

  /** A waiting member takes any attachment. */
  lemma AttachIsTaken(g: F.Group, op: F.Op)
    requires op.Attach? && F.Shape(g)
    ensures forall k :: WaitsToStart(g, op.deviceRef, k) ==> F.Decide(op, g).Replace? && F.Target(op, g) == k
  {
    hide F.AggregateOf, F.AllTerminal, F.MemberShape;
    forall k | WaitsToStart(g, op.deviceRef, k) ensures F.Target(op, g) == k {
      assert F.Matches(op, g.members[k]);
    }
  }

  lemma AttachedAs(t: Table<D.Record>, t': Table<D.Record>, children: map<string, Child>, g: F.Group, g': F.Group,
                   op: F.Op, a: string, i: nat, threw: bool, pinned: bool)
    requires op.Attach? && F.Shape(g) && F.CallIsOwn(op, g) && AttachesCall(t, g, op, a, i) && M.Grows(t, t')
    requires F.Decide(op, g).Replace? ==> g' == F.Decide(op, g).next
    requires (threw <==> MustThrow(t', children, a)) && pinned == IsPinnedTo(t[a].body, op.deviceRef)
    requires LeftDispatched(t', children, a)
    ensures forall k :: WaitsToStart(g, op.deviceRef, k) ==> IsAttached(pinned, t', children, g', k, threw)
  {
    AttachIsTaken(g, op);
    hide F.CallIsOwn, F.Target, MustThrow, LeftDispatched, MemberKey;
    forall k | WaitsToStart(g, op.deviceRef, k) ensures IsAttached(pinned, t', children, g', k, threw) {
      F.AttachKeeps(op, g);
      assert g'.members[k] == g.members[k].(callId := Some(op.callId), status := F.Pending);
      assert IsMemberCall(t, g', g'.members[k], a, i);
      CallStays(t, t', g', g'.members[k], a, i);
    }
  }

  lemma CallStays(t: Table<D.Record>, t': Table<D.Record>, g: F.Group, m: F.Member, a: string, i: nat)
    requires IsMemberCall(t, g, m, a, i) && M.Grows(t, t')
    ensures IsMemberCall(t', g, m, a, i) && t'[a].body.targetRef == t[a].body.targetRef
  {
    hide MemberKey;
    assert D.Evolves(t[a].body, t'[a].body);
    assert D.CallEvolves(t[a].body.calls[i], t'[a].body.calls[i]);
  }

  lemma AttachedStarts(t: Table<D.Record>, children: map<string, Child>, g: F.Group)
    ensures forall k, pinned :: IsAttached(pinned, t, children, g, k, false) ==>
              StartsAs(false, pinned, t, children, g, k)
  {
    hide IsMemberCall, MustThrow, LeftDispatched;
  }

  /** A start that threw fails the member, and leaves it its call if it had got one. */
  lemma FailedAs(t: Table<D.Record>, children: map<string, Child>, g: F.Group, between: F.Group, g': F.Group, op: F.Op)
    requires op.StartupFailed? && F.Shape(between) && F.Evolves(g, between) && op.failure.code == "delegation_rejected"
    requires F.Decide(op, between).Replace? ==> g' == F.Decide(op, between).next
    ensures forall k, pinned :: WaitsToStart(g, op.deviceRef, k) && between == g ==>
              StartsAs(true, pinned, t, children, g', k)
    ensures forall k, pinned ::
              WaitsToStart(g, op.deviceRef, k) && IsAttached(pinned, t, children, between, k, true) ==>
                StartsAs(false, pinned, t, children, g', k)
  {
    NoneGoesBack(g, between);
    hide F.Evolves, F.AggregateOf, IsAttached, StartsAs;
    forall k, pinned | WaitsToStart(g, op.deviceRef, k) && IsAttached(pinned, t, children, between, k, true)
      ensures StartsAs(false, pinned, t, children, g', k)
    {
      AttachedFails(pinned, t, children, between, g', op, k);
    }
    forall k, pinned | WaitsToStart(g, op.deviceRef, k) && between == g
      ensures StartsAs(true, pinned, t, children, g', k)
    {
      RefusedFails(pinned, t, children, g, g', op, k);
    }
  }

  lemma RefusedFails(pinned: bool, t: Table<D.Record>, children: map<string, Child>, g: F.Group, g': F.Group, op: F.Op,
                     k: int)
    requires op.StartupFailed? && F.Shape(g) && op.failure.code == "delegation_rejected"
    requires F.Decide(op, g).Replace? ==> g' == F.Decide(op, g).next
    requires WaitsToStart(g, op.deviceRef, k)
    ensures StartsAs(true, pinned, t, children, g', k)
  {
    FailureIsTaken(g, op, k);
    F.OutcomeForm(op, g);
    assert F.MemberShape(g.members[k]);
    hide F.Decide, F.Shape, F.AggregateOf, IsMemberCall;
  }

  lemma AttachedFails(pinned: bool, t: Table<D.Record>, children: map<string, Child>, g: F.Group, g': F.Group, op: F.Op,
                      k: int)
    requires op.StartupFailed? && F.Shape(g) && op.failure.code == "delegation_rejected"
    requires F.Decide(op, g).Replace? ==> g' == F.Decide(op, g).next
    requires 0 <= k < |g.members| && g.members[k].deviceRef == op.deviceRef
    requires IsAttached(pinned, t, children, g, k, true)
    ensures StartsAs(false, pinned, t, children, g', k)
  {
    FailureIsTaken(g, op, k);
    F.OutcomeForm(op, g);
    hide F.Decide, F.Shape, F.AggregateOf, MustThrow, LeftDispatched, MemberKey;
    var a, i: nat :| IsMemberCall(t, g, g.members[k], a, i) && MustThrow(t, children, a)
                     && LeftDispatched(t, children, a) && pinned == IsPinnedTo(t[a].body, g.members[k].deviceRef);
    assert IsMemberCall(t, g', g'.members[k], a, i);
  }

  lemma FailureIsTaken(g: F.Group, op: F.Op, k: nat)
    requires op.StartupFailed? && F.Shape(g) && k < |g.members| && g.members[k].deviceRef == op.deviceRef
    requires !F.Terminal(g.members[k])
    ensures F.Decide(op, g).Replace? && F.Target(op, g) == k
  {
    assert F.Matches(op, g.members[k]);
    hide F.AggregateOf, F.MemberShape;
  }

  lemma StartupOwnsNothing(g: F.Group, op: F.Op)
    requires !op.Attach?
    ensures F.CallIsOwn(op, g)
  {
  }

  lemma FailedIsEnded(g: F.Group, g': F.Group, op: F.Op)
    requires op.StartupFailed? && F.Shape(g) && HasDevice(g, op.deviceRef)
    requires g' == if F.Decide(op, g).Replace? then F.Decide(op, g).next else g
    ensures IsStarted(g', op.deviceRef)
  {
    if F.Decide(op, g).Replace? {
      F.OutcomeKeeps(op, g);
    }
    hide F.AggregateOf;
  }

  // ---------- When a relation is dispatched ----------

  /** The call due cannot be handed over to a child that is there, and no other call waits behind it. */
  ghost predicate MustThrow(t: Table<D.Record>, children: map<string, Child>, id: string) {
    IsStuck(t, children, id) && t[id].body.childSessionId in children && D.NextQueued(t[id].body.calls).None?
  }

  /** What is not dispatched at all has nothing that could be. */
  lemma SkipsRightly(t: Table<D.Record>, children: map<string, Child>, id: string)
    ensures id !in t || t[id].body.status != D.Open || t[id].body.childSessionId !in children
            || (D.NextQueued(t[id].body.calls).Some? && children[t[id].body.childSessionId].status == ChildNotReady) ==>
              LeftDispatched(t, children, id) && !MustThrow(t, children, id)
  {
    hide D.OpenAt, LoggedBefore;
  }

  /** What is dispatched throws exactly if the call due is blocked. */
  lemma ThrowsRightly(t: Table<D.Record>, children: map<string, Child>, id: string)
    requires id in t && t[id].body.childSessionId in children
    requires D.NextQueued(t[id].body.calls).Some? ==> children[t[id].body.childSessionId].status != ChildNotReady
    ensures MustThrow(t, children, id) <==>
              exists k: nat :: D.IsDue(t[id].body, k) && IsBlocked(children, t[id].body, k)
  {
    hide D.IsDue, HasInput;
  }

  // ---------- What a finished pass leaves ----------

  ghost predicate NotEnded(t: Table<D.Record>, callId: string) {
    forall a, i: nat :: a in t && i < |t[a].body.calls| && t[a].body.calls[i].callId == callId ==>
      !D.IsTerminal(t[a].body.calls[i].status)
  }

  /** The member has ended, or is pending on a call that has not. */
  ghost predicate IsSettledOrWaiting(t: Table<D.Record>, g: F.Group, k: nat) {
    && k < |g.members| && g.members[k].status != F.Starting
    && (g.members[k].status == F.Pending ==> g.members[k].callId.Some? && NotEnded(t, g.members[k].callId.value))
  }

  /** So once every member's call has ended, the next pass that finishes settles the group. */
  lemma SettlesWhenAllEnded(t: Table<D.Record>, g: F.Group)
    requires F.Shape(g) && forall k :: 0 <= k < |g.members| ==> IsSettledOrWaiting(t, g, k)
    requires forall k :: 0 <= k < |g.members| && g.members[k].callId.Some? ==> !NotEnded(t, g.members[k].callId.value)
    ensures g.settled && g.aggregate == Some(F.AggregateOf(g.members))
  {
    hide F.AggregateOf, NotEnded;
    forall k | 0 <= k < |g.members| ensures F.Terminal(g.members[k]) {
      assert IsSettledOrWaiting(t, g, k);
    }
  }

  /** Every member has ended, or is attached to a call that has. */
  ghost predicate AllEnded(t: Table<D.Record>, g: F.Group) {
    forall k :: 0 <= k < |g.members| ==>
      F.Terminal(g.members[k]) || (g.members[k].callId.Some? && !NotEnded(t, g.members[k].callId.value))
  }

  /** Settled, with the aggregate of its members, and delivered if the parent can be reached. */
  predicate IsFinished(g: F.Group, parentReachable: bool) {
    g.settled && g.aggregate == Some(F.AggregateOf(g.members)) && (parentReachable ==> g.delivered)
  }

  lemma EndedStays(t: Table<D.Record>, t': Table<D.Record>, callId: string)
    requires M.Grows(t, t') && !NotEnded(t, callId)
    ensures !NotEnded(t', callId)
  {
    var a, i: nat :| a in t && i < |t[a].body.calls| && t[a].body.calls[i].callId == callId
                     && D.IsTerminal(t[a].body.calls[i].status);
    assert D.Evolves(t[a].body, t'[a].body);
    assert D.CallEvolves(t[a].body.calls[i], t'[a].body.calls[i]);
  }

  /** What had all ended before a pass is settled after it. */
  lemma PassSettles(t: Table<D.Record>, t': Table<D.Record>, g: F.Group, g': F.Group)
    requires M.Grows(t, t') && F.Evolves(g, g') && F.Shape(g') && AllEnded(t, g)
    requires forall k :: 0 <= k < |g'.members| ==> IsSettledOrWaiting(t', g', k)
    ensures g'.settled && g'.aggregate == Some(F.AggregateOf(g'.members))
  {
    NoneGoesBack(g, g');
    hide F.AggregateOf, M.Grows, F.SameIntent, NotEnded;
    forall k | 0 <= k < |g'.members| ensures F.Terminal(g'.members[k]) {
      assert F.MemberEvolves(g.members[k], g'.members[k]);
      assert IsSettledOrWaiting(t', g', k);
      if !F.Terminal(g.members[k]) {
        EndedStays(t, t', g.members[k].callId.value);
      }
    }
  }

  /** What a settled group reports for a device is the result of that device's own completed call. */
  lemma ReportIsTrue(t: Table<D.Record>, g: F.Group, k: nat)
    requires GroupLinked(t, g) && g.settled && k < |g.members|
    ensures g.aggregate.Some? && |g.aggregate.value.devices| == |g.members|
    ensures g.aggregate.value.devices[k].deviceRef == g.members[k].deviceRef
    ensures g.aggregate.value.devices[k].Observed? ==>
              exists a, i: nat ::
                && IsMemberCall(t, g, g.members[k], a, i) && t[a].body.calls[i].status == D.Completed
                && (KeysPinned(t) && '#' !in g.parentRequestId ==> IsPinnedTo(t[a].body, g.members[k].deviceRef))
                && g.aggregate.value.devices[k].observation == t[a].body.calls[i].result.GetOr("")
  {
    F.AggregateIsHonest(g.members);
    assert F.MemberShape(g.members[k]) && MemberLinked(t, g, g.members[k]);
    hide F.AggregateOf, F.Apart, CountIf, AfterHash, KeyAt, KeysPinned;
    if g.members[k].callId.Some? {
      var a, i: nat :| IsMemberCall(t, g, g.members[k], a, i) && IsTrueTo(g.members[k], t[a].body.calls[i]);
      if KeysPinned(t) && '#' !in g.parentRequestId {
        CallIsPinned(t, g, g.members[k], a, i);
      }
    }
  }

  // ---------- What becomes of each member ----------

  /** The members of other devices are as they were, and so is whether the group is delivered. */
  predicate OthersKept(g: F.Group, g': F.Group, deviceRef: string) {
    && |g'.members| == |g.members| && g'.delivered == g.delivered
    && forall k :: 0 <= k < |g.members| && g.members[k].deviceRef != deviceRef ==> g'.members[k] == g.members[k]
  }

  /** All members but the `k`th are as they were. */
  predicate MemberKept(g: F.Group, g': F.Group, k: int) {
    && |g'.members| == |g.members| && g'.delivered == g.delivered
    && forall j :: 0 <= j < |g.members| && j != k ==> g'.members[j] == g.members[j]
  }

  /** The members that did not wait to start are as they were. */
  predicate StartedKept(g: F.Group, g': F.Group) {
    && |g'.members| == |g.members| && g'.delivered == g.delivered
    && forall k :: 0 <= k < |g.members| && g.members[k].status != F.Starting ==> g'.members[k] == g.members[k]
  }

  /** A pending member whose call has ended has the outcome of that call. */
  ghost predicate TookOutcome(t: Table<D.Record>, g: F.Group, g': F.Group, k: int) {
    0 <= k < |g.members| && g.members[k].status == F.Pending ==>
      && k < |g'.members|
      && forall a, i: nat :: EndedCall(t, g.members[k], a, i) ==>
           g'.members[k] == F.Applied(g.members[k], OutcomeOfCall(t[a].body.calls[i]))
  }

  /** The member's call is the call `i` of `a`, which has ended. */
  predicate EndedCall(t: Table<D.Record>, m: F.Member, a: string, i: nat) {
    && a in t && i < |t[a].body.calls| && m.callId == Some(t[a].body.calls[i].callId)
    && D.IsTerminal(t[a].body.calls[i].status)
  }

  lemma WriteKeepsOthers(g: F.Group, op: F.Op, deviceRef: string)
    requires (op.Attach? || op.StartupFailed?) && op.deviceRef == deviceRef
    ensures F.Decide(op, g).Replace? ==> OthersKept(g, F.Decide(op, g).next, deviceRef)
  {
    hide F.AggregateOf;
  }

  lemma EndedKeepsOthers(g: F.Group, op: F.Op, k: nat)
    requires F.Shape(g) && op.Ended? && k < |g.members| && g.members[k].callId == Some(op.callId)
    ensures F.Decide(op, g).Replace? ==> MemberKept(g, F.Decide(op, g).next, k)
  {
    hide F.AggregateOf, F.MemberShape, F.AllTerminal;
  }

  lemma NoOutcomeYet(t: Table<D.Record>, g: F.Group, k: nat)
    requires k < |g.members| && g.members[k].callId.Some? && NotEnded(t, g.members[k].callId.value)
    requires g.members[k].status != F.Starting
    ensures TookOutcome(t, g, g, k) && IsSettledOrWaiting(t, g, k)
  {
  }

  /** The outcome recorded is that of the member's call, of which there is one. */
  lemma OutcomeTaken(t: Table<D.Record>, minted: nat, children: map<string, Child>, g: F.Group, g': F.Group, op: F.Op,
                     k: nat, a: string, i: nat)
    requires WorldInv(t, minted, children) && op.Ended? && EndsCall(t, op, a, i)
    requires F.Shape(g) && k < |g.members| && g.members[k].callId == Some(op.callId) && g.members[k].status == F.Pending
    requires g' == if F.Decide(op, g).Replace? then F.Decide(op, g).next else g
    ensures TookOutcome(t, g, g', k)
  {
    InvOfWorld(t, minted, children);
    hide WorldInv, M.TableInv, F.AggregateOf, F.MemberShape;
    PendingTakesOutcome(g, op, k);
    hide F.Decide, F.Shape;
    forall b, j: nat | EndedCall(t, g.members[k], b, j)
      ensures g'.members[k] == F.Applied(g.members[k], OutcomeOfCall(t[b].body.calls[j]))
    {
      SameCall(t, a, i, b, j);
    }
  }

  lemma PendingTakesOutcome(g: F.Group, op: F.Op, k: nat)
    requires F.Shape(g) && op.Ended? && k < |g.members| && g.members[k].callId == Some(op.callId)
    requires g.members[k].status == F.Pending
    ensures F.Decide(op, g).Replace? && k < |F.Decide(op, g).next.members|
    ensures F.Decide(op, g).next.members[k] == F.Applied(g.members[k], op.outcome)
  {
    assert F.Matches(op, g.members[k]);
    hide F.AggregateOf, F.MemberShape;
    assert F.Target(op, g) == k;
  }

  lemma StartKeepsStarted(g: F.Group, before: F.Group, after: F.Group, n: nat)
    requires F.Shape(g) && n < |g.members| && g.members[n].status == F.Starting && StartedKept(g, before)
    requires F.Evolves(g, before) && OthersKept(before, after, g.members[n].deviceRef)
    ensures StartedKept(g, after)
  {
    NoneGoesBack(g, before);
    hide F.AggregateOf, F.Evolves, F.MemberShape;
  }

  lemma OutcomesSoFar(t: Table<D.Record>, g: F.Group, before: F.Group, after: F.Group, n: nat)
    requires n < |g.members| == |before.members| && MemberKept(before, after, n) && TookOutcome(t, before, after, n)
    requires forall k :: 0 <= k < n ==> TookOutcome(t, g, before, k)
    requires forall k :: n <= k < |g.members| ==> before.members[k] == g.members[k]
    ensures forall k :: 0 <= k < n + 1 ==> TookOutcome(t, g, after, k)
    ensures forall k :: n + 1 <= k < |g.members| ==> after.members[k] == g.members[k]
    ensures after.delivered == before.delivered
  {
    hide EndedCall;
    forall k | 0 <= k < n + 1 ensures TookOutcome(t, g, after, k) {
      if k < n {
        assert TookOutcome(t, g, before, k) && after.members[k] == before.members[k];
      }
    }
  }

  /** Over a whole pass: members that were pending were kept while others were started, and calls that had ended stay
      as they ended. */
  lemma PassTakesOutcomes(t: Table<D.Record>, t': Table<D.Record>, g: F.Group, between: F.Group, g': F.Group)
    requires M.Grows(t, t') && StartedKept(g, between)
    requires forall k :: 0 <= k < |between.members| ==> TookOutcome(t', between, g', k)
    ensures between.delivered == g.delivered
    ensures forall k :: 0 <= k < |g.members| ==> TookOutcome(t, g, g', k)
  {
    forall k | 0 <= k < |g.members| && g.members[k].status == F.Pending ensures TookOutcome(t, g, g', k) {
      assert TookOutcome(t', between, g', k);
      forall a, i: nat | EndedCall(t, g.members[k], a, i)
        ensures g'.members[k] == F.Applied(g.members[k], OutcomeOfCall(t[a].body.calls[i]))
      {
        assert D.Evolves(t[a].body, t'[a].body);
        assert D.CallEvolves(t[a].body.calls[i], t'[a].body.calls[i]);
        assert EndedCall(t', between.members[k], a, i);
      }
    }
  }

  lemma TookSame(t: Table<D.Record>, g: F.Group, before: F.Group, after: F.Group)
    requires after.members == before.members && forall k :: 0 <= k < |g.members| ==> TookOutcome(t, g, before, k)
    ensures forall k :: 0 <= k < |g.members| ==> TookOutcome(t, g, after, k)
  {
    forall k | 0 <= k < |g.members| ensures TookOutcome(t, g, after, k) {
      assert TookOutcome(t, g, before, k);
    }
  }

  /** In a settled group no member is pending. */
  lemma SettledTookOutcomes(t: Table<D.Record>, g: F.Group)
    requires F.Shape(g) && g.settled
    ensures forall k :: 0 <= k < |g.members| ==> TookOutcome(t, g, g, k)
  {
    hide F.AggregateOf, EndedCall;
  }

  // ---------- How many writes a pass can need ----------

  function StartingCount(ms: seq<F.Member>): nat {
    CountIf(ms, (m: F.Member) => m.status == F.Starting)
  }

  /** Eight for each member still to be started, one for each outcome, one for the delivery. */
  function WritesNeeded(g: F.Group): nat {
    8 * StartingCount(g.members) + |g.members| + 1
  }

  lemma StartingCountStep(ms: seq<F.Member>, n: nat)
    requires n < |ms|
    ensures StartingCount(ms[..n + 1]) == StartingCount(ms[..n]) + if ms[n].status == F.Starting then 1 else 0
    ensures StartingCount(ms[..n + 1]) <= StartingCount(ms)
  {
    assert ms[..n + 1][..n] == ms[..n];
    assert ms[..n + 1] + ms[n + 1..] == ms;
    CountIfConcat(ms[..n + 1], ms[n + 1..], (m: F.Member) => m.status == F.Starting);
  }

  function OutcomeOfCall(c: D.Call): F.CallOutcome {
    if c.status == D.Completed then F.Succeeded(c.result.GetOr(""))
    else
      var f := c.failure.GetOr(D.Failure("failed", "DelegationCall failed"));
      F.FailedWith(F.Failure(f.code, f.message))
  }

  /** The outcome of a call that has ended is its own result, or its own failure. */
  lemma OutcomeIsTheCalls(c: D.Call)
    requires D.CallShape(c)
    ensures c.status == D.Completed ==> c.result.Some? && OutcomeOfCall(c) == F.Succeeded(c.result.value)
    ensures c.status == D.CallFailed ==>
              && c.failure.Some?
              && OutcomeOfCall(c) == F.FailedWith(F.Failure(c.failure.value.code, c.failure.value.message))
  {
  }

  lemma OneCallDecides(t: Table<D.Record>, minted: nat, children: map<string, Child>, callId: string, a: string, i: nat)
    requires WorldInv(t, minted, children) && a in t && i < |t[a].body.calls| && t[a].body.calls[i].callId == callId
    ensures !D.IsTerminal(t[a].body.calls[i].status) ==> NotEnded(t, callId)
  {
    hide D.Shape, IdsAhead, KeysUnique, LogsBound;
    forall b, j: nat | b in t && j < |t[b].body.calls| && t[b].body.calls[j].callId == callId ensures b == a && j == i {
      assert M.HasCall(t[a].body, callId) && M.HasCall(t[b].body, callId);
      SameCallSameIndex(t, a, i, j);
    }
  }

  lemma NotPendingOrStarting(t: Table<D.Record>, g: F.Group, k: nat)
    requires F.Shape(g) && k < |g.members| && (g.members[k].status != F.Pending || g.members[k].callId.None?)
    ensures g.members[k].status != F.Starting ==> IsSettledOrWaiting(t, g, k)
    ensures TookOutcome(t, g, g, k)
  {
    hide F.AggregateOf;
  }

  lemma EndedIsSettled(t: Table<D.Record>, g: F.Group, k: nat)
    requires k < |g.members| && F.Terminal(g.members[k])
    ensures IsSettledOrWaiting(t, g, k)
  {
  }

  lemma KeptSame(g: F.Group, k: nat)
    ensures MemberKept(g, g, k)
  {
  }

  lemma IsItsEnd(t: Table<D.Record>, op: F.Op, a: string, i: nat)
    requires op.Ended? && a in t && i < |t[a].body.calls| && t[a].body.calls[i].callId == op.callId
    requires D.IsTerminal(t[a].body.calls[i].status) && op.outcome == OutcomeOfCall(t[a].body.calls[i])
    ensures EndsCall(t, op, a, i)
  {
  }

  lemma EndedIsEnded(g: F.Group, g': F.Group, op: F.Op, k: nat)
    requires op.Ended? && F.Shape(g) && k < |g.members| && g.members[k].callId == Some(op.callId)
    requires g' == if F.Decide(op, g).Replace? then F.Decide(op, g).next else g
    ensures k < |g'.members| && F.Terminal(g'.members[k])
  {
    if F.Decide(op, g).Replace? {
      F.OutcomeKeeps(op, g);
    }
    hide F.AggregateOf;
  }

  lemma SettledIsSettled(t: Table<D.Record>, g: F.Group)
    requires F.Shape(g) && g.settled
    ensures forall k :: 0 <= k < |g.members| ==> IsSettledOrWaiting(t, g, k)
  {
    hide F.AggregateOf, NotEnded;
  }

  lemma StaysWaiting(t: Table<D.Record>, g: F.Group, g': F.Group, k: nat)
    requires IsSettledOrWaiting(t, g, k) && F.Evolves(g, g')
    ensures IsSettledOrWaiting(t, g', k)
  {
    hide NotEnded;
    assert |F.DeviceRefs(g.members)| == |F.DeviceRefs(g'.members)|;
    assert F.MemberEvolves(g.members[k], g'.members[k]);
  }

  lemma AllStayWaiting(t: Table<D.Record>, g: F.Group, g': F.Group)
    requires F.Evolves(g, g') && forall k :: 0 <= k < |g.members| ==> IsSettledOrWaiting(t, g, k)
    ensures forall k :: 0 <= k < |g'.members| ==> IsSettledOrWaiting(t, g', k)
  {
    assert |F.DeviceRefs(g.members)| == |F.DeviceRefs(g'.members)|;
    hide IsSettledOrWaiting, F.Evolves;
    forall k | 0 <= k < |g.members| ensures IsSettledOrWaiting(t, g', k) {
      StaysWaiting(t, g, g', k);
    }
  }

  lemma NoneGoesBack(g: F.Group, g': F.Group)
    requires F.Evolves(g, g')
    ensures |g'.members| == |g.members| && g'.parentRequestId == g.parentRequestId
    ensures forall k :: 0 <= k < |g.members| && g.members[k].status != F.Starting ==> g'.members[k].status != F.Starting
    ensures forall k :: 0 <= k < |g.members| ==> g'.members[k].deviceRef == g.members[k].deviceRef
  {
    assert |F.DeviceRefs(g.members)| == |F.DeviceRefs(g'.members)|;
    forall k | 0 <= k < |g.members| ensures F.MemberEvolves(g.members[k], g'.members[k]) {
    }
  }

  lemma StartedStay(g: F.Group, g': F.Group)
    requires F.Evolves(g, g')
    ensures forall deviceRef :: IsStarted(g, deviceRef) ==> IsStarted(g', deviceRef)
  {
    NoneGoesBack(g, g');
    hide F.Evolves;
  }

  lemma MemberIsDevice(g: F.Group, k: nat)
    requires k < |g.members|
    ensures HasDevice(g, g.members[k].deviceRef)
  {
  }

  lemma AlreadyStarted(g: F.Group, g': F.Group, k: nat)
    requires F.Shape(g) && F.Evolves(g, g') && k < |g.members| && g.members[k].status != F.Starting
    ensures IsStarted(g', g.members[k].deviceRef)
  {
    NoneGoesBack(g, g');
    hide F.Evolves, F.AggregateOf;
  }

  lemma AllStarted(g: F.Group, g': F.Group)
    requires F.Evolves(g, g') && forall k :: 0 <= k < |g.members| ==> IsStarted(g', g.members[k].deviceRef)
    ensures forall k :: 0 <= k < |g'.members| ==> g'.members[k].status != F.Starting
  {
    NoneGoesBack(g, g');
    hide F.Evolves;
    forall k | 0 <= k < |g'.members| ensures g'.members[k].status != F.Starting {
      assert IsStarted(g', g.members[k].deviceRef);
    }
  }

  // ---------- Many passes ----------

  datatype FanoutPass =
    | OpenPass(writes: nat, id: string, group: F.Group)
    | ProgressPass(writes: nat, id: string, parentExists: bool, parentReachable: bool, limits: Limits, mayCall: bool,
                   paired: set<string>)
    | CentralPass(pass: Pass)

  function WritesOf(p: FanoutPass): nat {
    if p.CentralPass? then p.pass.writes else p.writes
  }

  /** Request ids of this pass have no `#`, which is kept for member keys. */
  predicate IsPlain(p: FanoutPass) {
    match p
    case OpenPass(_, _, g) => '#' !in g.parentRequestId
    case CentralPass(pass) => pass.StartPass? ==> '#' !in pass.start.requestId
    case _ => true
  }

  predicate ArePlain(passes: seq<FanoutPass>) {
    forall p :: p in passes ==> IsPlain(p)
  }

  predicate AllPlain(groups: Table<F.Group>) {
    forall id :: id in groups ==> '#' !in groups[id].body.parentRequestId
  }

  ghost predicate Admitted(p: FanoutPass) {
    match p
    case OpenPass(_, _, g) => F.IsNew(g)
    case ProgressPass(_, _, _, _, limits, _, _) => limits.maxQueuedCalls >= 1
    case CentralPass(pass) => Admissible(pass)
  }

  ghost predicate GroupsEvolve(a: Table<F.Group>, b: Table<F.Group>) {
    forall id :: id in a ==> id in b && F.Evolves(a[id].body, b[id].body)
  }

  lemma GroupsEvolveReflexive(a: Table<F.Group>)
    ensures GroupsEvolve(a, a)
  {
    forall id | id in a ensures F.Evolves(a[id].body, a[id].body) {
      F.EvolvesReflexive(a[id].body);
    }
  }

  lemma GroupsEvolveTransitive(a: Table<F.Group>, b: Table<F.Group>, c: Table<F.Group>)
    requires GroupsEvolve(a, b) && GroupsEvolve(b, c)
    ensures GroupsEvolve(a, c)
  {
    hide F.Evolves;
    forall id | id in a ensures F.Evolves(a[id].body, c[id].body) {
      F.EvolvesTransitive(a[id].body, b[id].body, c[id].body);
    }
  }

  lemma NewGroupLinks(t: Table<D.Record>, g: F.Group)
    requires F.IsNew(g) && F.Shape(g)
    ensures GroupLinked(t, g)
  {
    hide F.Shape;
  }
}
