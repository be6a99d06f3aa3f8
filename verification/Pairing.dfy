/** Pairing devices into a case: one-time invites, per-device credentials, revocation. Operations on one case run one
    after the other; operations on other cases, and the closing of the case itself, fall between any two of their
    steps, and the process may die between them. Device refs are derived without collisions and credentials verify
    exactly against themselves. */
module Pairing {
  import opened Basics

  datatype DeviceRef = DeviceRef(caseId: string, deviceId: string)

  datatype Invite = Invite(caseId: string, secret: string, pending: bool, revision: nat)

  datatype Binding = Binding(credential: string, active: bool, revision: nat)

  /** How far the operation in flight on a case has come, with what it has read. */
  datatype Op =
    | Claiming(inviteId: string, invite: Invite, deviceId: string)
    | Claimed(deviceId: string, issued: string)
    | Upserting(deviceId: string, issued: string, existing: Option<Binding>)
    | Revoking(deviceId: string, held: Binding)
    | Sweeping(todo: seq<(string, Binding)>, onTerminal: bool)

  /** `terminal` tells of each session whether it has closed. `latest` is the credential of each device's latest
      redeem; `swept` holds the cases on which a revocation begun after closing has completed. */
  datatype World = World(
    terminal: map<string, bool>,
    invites: map<string, Invite>,
    bindings: map<DeviceRef, Binding>,
    ops: map<string, Op>,
    latest: map<DeviceRef, string>,
    swept: set<string>)

  datatype Step =
    | OpenCase(caseId: string)
    | CloseCase(caseId: string)
    | CreateInvite(inviteId: string, caseId: string, secret: string)
    | BeginRedeem(inviteId: string, secret: string, deviceId: string, expired: bool)
    | Claim(caseId: string, issued: string)
    | ReadBinding(caseId: string)
    | WriteBinding(caseId: string)
    | BeginRevokeDevice(caseId: string, deviceId: string)
    | WriteRevoked(caseId: string)
    | BeginRevokeCase(caseId: string, order: seq<string>)
    | RevokeNext(caseId: string)
    | Die

  function Stored(w: World, caseId: string, deviceId: string): Option<Binding> {
    var ref := DeviceRef(caseId, deviceId);
    if ref in w.bindings then Some(w.bindings[ref]) else None
  }

  predicate IsLive(w: World, caseId: string) {
    caseId in w.terminal && !w.terminal[caseId]
  }

  predicate IsActive(w: World, caseId: string, deviceId: string) {
    DeviceRef(caseId, deviceId) in w.bindings && w.bindings[DeviceRef(caseId, deviceId)].active
  }

  /** The checks `redeemPairingInvite` makes once it is its turn. */
  predicate MayRedeem(w: World, inviteId: string, secret: string, expired: bool) {
    && inviteId in w.invites && w.invites[inviteId].pending && !expired
    && secret == w.invites[inviteId].secret && IsLive(w, w.invites[inviteId].caseId)
  }

  /** An operation on a case begins only when none is in flight on it; the order of a case's devices is the order the
      directory happens to list its active bindings in. */
  ghost predicate Enabled(w: World, s: Step) {
    match s
    case OpenCase(c) => c !in w.terminal
    case CloseCase(c) => c in w.terminal
    case CreateInvite(i, c, _) => i !in w.invites && IsLive(w, c)
    case BeginRedeem(i, _, _, _) => i in w.invites && w.invites[i].caseId !in w.ops
    case Claim(c, _) => c in w.ops && w.ops[c].Claiming?
    case ReadBinding(c) => c in w.ops && w.ops[c].Claimed?
    case WriteBinding(c) => c in w.ops && w.ops[c].Upserting?
    case BeginRevokeDevice(c, _) => c !in w.ops
    case WriteRevoked(c) => c in w.ops && w.ops[c].Revoking?
    case BeginRevokeCase(c, order) =>
      && c !in w.ops
      && (forall i, j :: 0 <= i < j < |order| ==> order[i] != order[j])
      && forall d :: d in order <==> IsActive(w, c, d)
    case RevokeNext(c) => c in w.ops && w.ops[c].Sweeping?
    case Die => true
  }

  /** Would this step's compare-and-set (or create) find what the operation read? */
  predicate WriteSucceeds(w: World, s: Step)
    requires Enabled(w, s)
  {
    match s
    case Claim(c, _) =>
      w.ops[c].inviteId in w.invites && w.invites[w.ops[c].inviteId].revision == w.ops[c].invite.revision
    case WriteBinding(c) =>
      var stored := Stored(w, c, w.ops[c].deviceId);
      if w.ops[c].existing.None? then stored.None?
      else stored.Some? && stored.value.revision == w.ops[c].existing.value.revision
    case WriteRevoked(c) =>
      var stored := Stored(w, c, w.ops[c].deviceId);
      stored.Some? && stored.value.revision == w.ops[c].held.revision
    case RevokeNext(c) =>
      w.ops[c].todo != [] ==>
        var stored := Stored(w, c, w.ops[c].todo[0].0);
        stored.Some? && stored.value.revision == w.ops[c].todo[0].1.revision
    case _ => true
  }

  function Finish(w: World, c: string): World {
    w.(ops := w.ops - {c})
  }

  function Revoked(b: Binding): Binding {
    b.(active := false, revision := b.revision + 1)
  }

  function WithHeld(w: World, c: string, order: seq<string>): seq<(string, Binding)>
    requires forall d :: d in order ==> DeviceRef(c, d) in w.bindings
  {
    seq(|order|, i requires 0 <= i < |order| => (order[i], w.bindings[DeviceRef(c, order[i])]))
  }

  /** A failed compare-and-set ends the operation with an error, or, in a revocation, is passed over. */
  function AfterClaim(w: World, c: string, issued: string): World
    requires Enabled(w, Claim(c, issued))
  {
    var op := w.ops[c];
    if !WriteSucceeds(w, Claim(c, issued)) then Finish(w, c)
    else w.(invites := w.invites[op.inviteId := op.invite.(pending := false, revision := op.invite.revision + 1)],
            ops := w.ops[c := Claimed(op.deviceId, issued)])
  }

  function AfterUpsert(w: World, c: string): World
    requires Enabled(w, WriteBinding(c))
  {
    var op := w.ops[c];
    var ref := DeviceRef(c, op.deviceId);
    if !WriteSucceeds(w, WriteBinding(c)) then Finish(w, c)
    else
      var revision := if op.existing.Some? then op.existing.value.revision + 1 else 1;
      Finish(w, c).(bindings := w.bindings[ref := Binding(op.issued, true, revision)],
                    latest := w.latest[ref := op.issued])
  }

  function AfterRevoke(w: World, c: string): World
    requires Enabled(w, WriteRevoked(c))
  {
    var op := w.ops[c];
    if !WriteSucceeds(w, WriteRevoked(c)) then Finish(w, c)
    else Finish(w, c).(bindings := w.bindings[DeviceRef(c, op.deviceId) := Revoked(op.held)])
  }

  function AfterRevokeNext(w: World, c: string): World
    requires Enabled(w, RevokeNext(c))
  {
    var op := w.ops[c];
    if op.todo == [] then Finish(w, c).(swept := if op.onTerminal then w.swept + {c} else w.swept)
    else
      var rest := w.ops[c := Sweeping(op.todo[1..], op.onTerminal)];
      if WriteSucceeds(w, RevokeNext(c)) then
        w.(bindings := w.bindings[DeviceRef(c, op.todo[0].0) := Revoked(op.todo[0].1)], ops := rest)
      else w.(ops := rest)
  }

  function Next(w: World, s: Step): World
    requires Enabled(w, s)
  {
    match s
    case OpenCase(c) => w.(terminal := w.terminal[c := false])
    case CloseCase(c) => w.(terminal := w.terminal[c := true])
    case CreateInvite(i, c, secret) => w.(invites := w.invites[i := Invite(c, secret, true, 1)])
    case BeginRedeem(i, secret, deviceId, expired) =>
      if MayRedeem(w, i, secret, expired) then
        w.(ops := w.ops[w.invites[i].caseId := Claiming(i, w.invites[i], deviceId)])
      else w
    case Claim(c, issued) => AfterClaim(w, c, issued)
    case ReadBinding(c) =>
      var op := w.ops[c];
      w.(ops := w.ops[c := Upserting(op.deviceId, op.issued, Stored(w, c, op.deviceId))])
    case WriteBinding(c) => AfterUpsert(w, c)
    case BeginRevokeDevice(c, deviceId) =>
      if IsActive(w, c, deviceId) then w.(ops := w.ops[c := Revoking(deviceId, w.bindings[DeviceRef(c, deviceId)])])
      else w
    case WriteRevoked(c) => AfterRevoke(w, c)
    case BeginRevokeCase(c, order) =>
      w.(ops := w.ops[c := Sweeping(WithHeld(w, c, order), c in w.terminal && w.terminal[c])])
    case RevokeNext(c) => AfterRevokeNext(w, c)
    case Die => w.(ops := map[])
  }

  // ---------- Invariant ----------

  /** What the operation in flight on `c` read is still what is stored; a sweep has every active binding of the case on
      its list, once. */
  ghost predicate OpHolds(w: World, c: string, op: Op) {
    match op
    case Claiming(i, invite, _) => i in w.invites && w.invites[i] == invite && invite.pending && invite.caseId == c
    case Claimed(_, _) => true
    case Upserting(d, _, existing) => existing == Stored(w, c, d)
    case Revoking(d, held) => Stored(w, c, d) == Some(held)
    case Sweeping(todo, onTerminal) =>
      && (onTerminal ==> c in w.terminal && w.terminal[c])
      && (forall i, j :: 0 <= i < j < |todo| ==> todo[i].0 != todo[j].0)
      && (forall i :: 0 <= i < |todo| ==> Stored(w, c, todo[i].0) == Some(todo[i].1))
      && forall d :: IsActive(w, c, d) ==> exists i :: 0 <= i < |todo| && todo[i].0 == d
  }

  predicate MayActivate(op: Op) {
    op.Claiming? || op.Claimed? || op.Upserting?
  }

  /** The clauses about bindings, credentials and swept cases. */
  ghost predicate RestHolds(w: World) {
    && (forall ref :: ref in w.bindings ==> ref in w.latest && w.latest[ref] == w.bindings[ref].credential)
    && (forall ref :: ref in w.latest ==> ref in w.bindings)
    && (forall c, d :: c in w.swept ==> !IsActive(w, c, d))
    && forall c :: c in w.swept ==> c in w.terminal && w.terminal[c] && (c in w.ops ==> !MayActivate(w.ops[c]))
  }

  ghost predicate Inv(w: World) {
    (forall c :: c in w.ops ==> OpHolds(w, c, w.ops[c])) && RestHolds(w)
  }

  predicate Initial(w: World) {
    w.ops == map[] && w.bindings == map[] && w.latest == map[] && w.swept == {}
  }

  /** Because a case's operations do not overlap, no compare-and-set of a binding or an invite ever fails. */
  lemma WritesNeverFail(w: World, s: Step)
    requires Inv(w) && Enabled(w, s)
    ensures WriteSucceeds(w, s)
  {
    match s
    case Claim(c, _) => assert OpHolds(w, c, w.ops[c]);
    case WriteBinding(c) => assert OpHolds(w, c, w.ops[c]);
    case WriteRevoked(c) => assert OpHolds(w, c, w.ops[c]);
    case RevokeNext(c) => assert OpHolds(w, c, w.ops[c]);
    case _ =>
  }

  predicate WritesBindings(s: Step) {
    s.WriteBinding? || s.WriteRevoked? || s.RevokeNext?
  }

  /** A step keeps to its own case. */
  ghost predicate IsLocal(w: World, w': World, c: string) {
    && (forall k :: k in w.terminal && w.terminal[k] ==> k in w'.terminal && w'.terminal[k])
    && (forall i :: i in w.invites && w.invites[i].caseId != c ==> i in w'.invites && w'.invites[i] == w.invites[i])
    && (forall ref: DeviceRef :: ref.caseId != c ==> (ref in w'.bindings <==> ref in w.bindings))
    && (forall ref: DeviceRef :: ref.caseId != c && ref in w.bindings ==> w'.bindings[ref] == w.bindings[ref])
    && (forall d :: d != c ==> (d in w'.ops <==> d in w.ops))
    && (forall d :: d != c && d in w.ops ==> w'.ops[d] == w.ops[d])
  }

  /** A step of one case leaves what the operations on other cases read alone. */
  lemma OthersHold(w: World, w': World, c: string, d: string, op: Op)
    requires OpHolds(w, d, op) && d != c && IsLocal(w, w', c)
    ensures OpHolds(w', d, op)
  {
    assert forall x :: Stored(w', d, x) == Stored(w, d, x) && IsActive(w', d, x) == IsActive(w, d, x);
  }

  /** The case a step belongs to, if it is one that writes. */
  function CaseOf(w: World, s: Step): string
    requires Enabled(w, s)
  {
    match s
    case Claim(c, _) => c
    case ReadBinding(c) => c
    case WriteBinding(c) => c
    case BeginRevokeDevice(c, _) => c
    case WriteRevoked(c) => c
    case BeginRevokeCase(c, _) => c
    case RevokeNext(c) => c
    case OpenCase(c) => c
    case CloseCase(c) => c
    case CreateInvite(_, c, _) => c
    case BeginRedeem(i, _, _, _) => w.invites[i].caseId
    case Die => ""
  }

  lemma UpsertIsLocal(w: World, c: string)
    requires Enabled(w, WriteBinding(c))
    ensures IsLocal(w, AfterUpsert(w, c), c)
  {
    hide WriteSucceeds;
  }

  lemma RevokeIsLocal(w: World, c: string)
    requires Enabled(w, WriteRevoked(c))
    ensures IsLocal(w, AfterRevoke(w, c), c)
  {
    hide WriteSucceeds;
  }

  lemma RevokeNextIsLocal(w: World, c: string)
    requires Enabled(w, RevokeNext(c))
    ensures IsLocal(w, AfterRevokeNext(w, c), c)
  {
    hide WriteSucceeds, Revoked;
  }

  lemma BindingStepIsLocal(w: World, s: Step, c: string)
    requires Enabled(w, s) && WritesBindings(s) && c == CaseOf(w, s)
    ensures IsLocal(w, Next(w, s), c)
  {
    hide Enabled, IsLocal, AfterUpsert, AfterRevoke, AfterRevokeNext, AfterClaim;
    match s
    case WriteBinding(_) => UpsertIsLocal(w, c);
    case WriteRevoked(_) => RevokeIsLocal(w, c);
    case RevokeNext(_) => RevokeNextIsLocal(w, c);
  }

  lemma ClaimIsLocal(w: World, c: string, issued: string)
    requires Inv(w) && Enabled(w, Claim(c, issued))
    ensures IsLocal(w, Next(w, Claim(c, issued)), c)
  {
    assert OpHolds(w, c, w.ops[c]);
    hide Inv, OpHolds, WriteSucceeds;
  }

  lemma OtherStepIsLocal(w: World, s: Step, c: string)
    requires Enabled(w, s) && !s.Die? && !s.Claim? && !WritesBindings(s) && c == CaseOf(w, s)
    ensures IsLocal(w, Next(w, s), c)
  {
    hide IsActive, MayRedeem, WithHeld, Stored;
  }

  lemma StepIsLocal(w: World, s: Step, c: string)
    requires Inv(w) && Enabled(w, s) && !s.Die? && c == CaseOf(w, s)
    ensures IsLocal(w, Next(w, s), c)
  {
    hide Inv, Enabled, Next, IsLocal;
    if s.Claim? {
      ClaimIsLocal(w, c, s.issued);
    } else if WritesBindings(s) {
      BindingStepIsLocal(w, s, c);
    } else {
      OtherStepIsLocal(w, s, c);
    }
  }

  /** The stepping operation itself still holds what it read, or has ended. */
  lemma OwnHolds(w: World, s: Step, c: string)
    requires Inv(w) && Enabled(w, s) && !s.Die? && c == CaseOf(w, s) && c in Next(w, s).ops
    ensures OpHolds(Next(w, s), c, Next(w, s).ops[c])
  {
    var w' := Next(w, s);
    WritesNeverFail(w, s);
    if c in w.ops {
      assert OpHolds(w, c, w.ops[c]);
    }
    match s
    case OpenCase(_) => SameStored(w, w', c);
    case CloseCase(_) => SameStored(w, w', c);
    case CreateInvite(_, _, _) => SameStored(w, w', c);
    case BeginRedeem(_, _, _, _) => SameStored(w, w', c);
    case BeginRevokeDevice(_, _) => SameStored(w, w', c);
    case BeginRevokeCase(_, order) => SweepBegins(w, c, order);
    case RevokeNext(_) => SweepGoesOn(w, c);
    case _ =>
  }

  lemma SameStored(w: World, w': World, c: string)
    requires w'.bindings == w.bindings
    ensures forall d :: Stored(w', c, d) == Stored(w, c, d) && IsActive(w', c, d) == IsActive(w, c, d)
  {
  }

  lemma SweepBegins(w: World, c: string, order: seq<string>)
    requires Enabled(w, BeginRevokeCase(c, order))
    ensures var w' := Next(w, BeginRevokeCase(c, order)); OpHolds(w', c, w'.ops[c])
  {
    var w' := Next(w, BeginRevokeCase(c, order));
    SameStored(w, w', c);
    var todo := w'.ops[c].todo;
    forall d | IsActive(w', c, d) ensures exists i :: 0 <= i < |todo| && todo[i].0 == d {
      assert d in order;
      var i :| 0 <= i < |order| && order[i] == d;
      assert todo[i].0 == d;
    }
  }

  lemma SweepGoesOn(w: World, c: string)
    requires Inv(w) && Enabled(w, RevokeNext(c)) && w.ops[c].todo != []
    ensures var w' := Next(w, RevokeNext(c)); c in w'.ops && OpHolds(w', c, w'.ops[c])
  {
    var w', todo := Next(w, RevokeNext(c)), w.ops[c].todo;
    WritesNeverFail(w, RevokeNext(c));
    assert OpHolds(w, c, w.ops[c]);
    forall d | IsActive(w', c, d) ensures exists i :: 0 <= i < |todo[1..]| && todo[1..][i].0 == d {
      assert d != todo[0].0 && IsActive(w, c, d);
      var i :| 0 <= i < |todo| && todo[i].0 == d;
      assert todo[1..][i - 1].0 == d;
    }
  }

  lemma StepKeepsOps(w: World, s: Step)
    requires Inv(w) && Enabled(w, s)
    ensures var w' := Next(w, s); forall c :: c in w'.ops ==> OpHolds(w', c, w'.ops[c])
  {
    if !s.Die? {
      var w', c := Next(w, s), CaseOf(w, s);
      StepIsLocal(w, s, c);
      hide OpHolds, Next, Enabled, CaseOf, Inv, IsActive;
      assert forall d :: d in w.ops ==> OpHolds(w, d, w.ops[d]) by {
        InvOps(w);
      }
      forall d | d in w'.ops ensures OpHolds(w', d, w'.ops[d]) {
        if d == c {
          OwnHolds(w, s, c);
        } else {
          OthersHold(w, w', c, d, w.ops[d]);
        }
      }
    }
  }

  lemma InvOps(w: World)
    requires Inv(w)
    ensures forall d :: d in w.ops ==> OpHolds(w, d, w.ops[d])
  {
  }

  lemma QuietStep(w: World, s: Step)
    requires Enabled(w, s) && !WritesBindings(s)
    ensures Next(w, s).bindings == w.bindings && Next(w, s).latest == w.latest && Next(w, s).swept == w.swept
  {
    hide WriteSucceeds, AfterUpsert, AfterRevoke, AfterRevokeNext, WithHeld;
  }

  lemma QuietKeepsRest(w: World, s: Step)
    requires Inv(w) && Enabled(w, s) && !WritesBindings(s)
    ensures RestHolds(Next(w, s))
  {
    var w' := Next(w, s);
    QuietStep(w, s);
    assert forall c, d :: IsActive(w', c, d) == IsActive(w, c, d);
    forall c | c in w.swept ensures c in w'.terminal && w'.terminal[c] && (c in w'.ops ==> !MayActivate(w'.ops[c])) {
      hide IsActive, OpHolds;
    }
    hide Next, OpHolds, IsActive;
  }

  /** Writing a revoked binding activates nothing and keeps its credential. */
  lemma RevokedKeepsRest(w: World, w': World, ref: DeviceRef, held: Binding)
    requires RestHolds(w) && ref in w.bindings && w.bindings[ref] == held
    requires w'.bindings == w.bindings[ref := Revoked(held)] && w'.latest == w.latest && w'.swept == w.swept
    requires w'.terminal == w.terminal
    requires forall c :: c in w'.ops && MayActivate(w'.ops[c]) ==> c in w.ops && MayActivate(w.ops[c])
    ensures RestHolds(w')
  {
    assert forall c, d :: IsActive(w', c, d) ==> IsActive(w, c, d);
    hide IsActive, MayActivate;
  }

  lemma UpsertKeepsRest(w: World, c: string)
    requires Inv(w) && Enabled(w, WriteBinding(c))
    ensures RestHolds(Next(w, WriteBinding(c)))
  {
    var w' := Next(w, WriteBinding(c));
    assert c !in w.swept;
    hide OpHolds;
    assert forall e, d :: e != c ==> IsActive(w', e, d) == IsActive(w, e, d);
  }

  lemma SweepKeepsRest(w: World, c: string)
    requires Inv(w) && Enabled(w, RevokeNext(c))
    ensures RestHolds(Next(w, RevokeNext(c)))
  {
    var w', op := Next(w, RevokeNext(c)), w.ops[c];
    WritesNeverFail(w, RevokeNext(c));
    assert OpHolds(w, c, op);
    if op.todo == [] {
      assert forall d :: !IsActive(w, c, d);
      assert forall e, d :: IsActive(w', e, d) == IsActive(w, e, d);
      hide OpHolds, IsActive;
    } else {
      var ref := DeviceRef(c, op.todo[0].0);
      assert Stored(w, c, op.todo[0].0) == Some(op.todo[0].1);
      hide OpHolds, IsActive, RestHolds;
      RevokedKeepsRest(w, w', ref, op.todo[0].1);
    }
  }

  lemma LoudKeepsRest(w: World, s: Step)
    requires Inv(w) && Enabled(w, s) && WritesBindings(s)
    ensures RestHolds(Next(w, s))
  {
    match s
    case WriteBinding(c) => UpsertKeepsRest(w, c);
    case RevokeNext(c) => SweepKeepsRest(w, c);
    case WriteRevoked(c) =>
      WritesNeverFail(w, s);
      assert OpHolds(w, c, w.ops[c]);
      var ref := DeviceRef(c, w.ops[c].deviceId);
      hide OpHolds, IsActive, RestHolds;
      RevokedKeepsRest(w, Next(w, s), ref, w.ops[c].held);
  }

  lemma StepKeepsRest(w: World, s: Step)
    requires Inv(w) && Enabled(w, s)
    ensures RestHolds(Next(w, s))
  {
    if WritesBindings(s) {
      LoudKeepsRest(w, s);
    } else {
      QuietKeepsRest(w, s);
    }
  }

  lemma StepKeeps(w: World, s: Step)
    requires Inv(w) && Enabled(w, s)
    ensures Inv(Next(w, s))
  {
    StepKeepsOps(w, s);
    StepKeepsRest(w, s);
    hide Next, Enabled, OpHolds, IsActive;
  }

  // ---------- Runs ----------

  ghost predicate StepTo(w: World, s: Step, w': World) {
    Enabled(w, s) && w' == Next(w, s)
  }

  ghost predicate IsRun(ws: seq<World>, steps: seq<Step>) {
    |ws| == |steps| + 1 && Initial(ws[0]) && forall i :: 0 <= i < |steps| ==> StepTo(ws[i], steps[i], ws[i + 1])
  }

  lemma {:induction false} ReachableInv(ws: seq<World>, steps: seq<Step>, n: nat)
    requires IsRun(ws, steps) && n <= |steps|
    ensures Inv(ws[n])
  {
    if n > 0 {
      ReachableInv(ws, steps, n - 1);
      assert StepTo(ws[n - 1], steps[n - 1], ws[n]);
      hide Inv, Enabled, Next;
      StepKeeps(ws[n - 1], steps[n - 1]);
    }
  }

  lemma RunSteps(ws: seq<World>, steps: seq<Step>, n: nat)
    requires IsRun(ws, steps) && n < |steps|
    ensures Inv(ws[n]) && Enabled(ws[n], steps[n]) && ws[n + 1] == Next(ws[n], steps[n])
  {
    ReachableInv(ws, steps, n);
    assert StepTo(ws[n], steps[n], ws[n + 1]);
    hide Inv, Next, Enabled;
  }

  lemma OneStepStaysSwept(w: World, s: Step)
    requires Enabled(w, s)
    ensures w.swept <= Next(w, s).swept
  {
    hide WriteSucceeds, WithHeld;
  }

  lemma {:induction false} SweptGrows(ws: seq<World>, steps: seq<Step>, m: nat, n: nat)
    requires IsRun(ws, steps) && m <= n <= |steps|
    ensures ws[m].swept <= ws[n].swept
    decreases n
  {
    if m < n {
      SweptGrows(ws, steps, m, n - 1);
      var w, s := ws[n - 1], steps[n - 1];
      hide *;
      RunSteps(ws, steps, n - 1);
      OneStepStaysSwept(w, s);
    }
  }

  /** Once a revocation begun on the closed case has completed, no device of the case is ever active again. */
  lemma SweptStaysSwept(ws: seq<World>, steps: seq<Step>, m: nat, n: nat, c: string, d: string)
    requires IsRun(ws, steps) && m <= n <= |steps| && c in ws[m].swept
    ensures c in ws[n].swept && !IsActive(ws[n], c, d)
  {
    SweptGrows(ws, steps, m, n);
    ReachableInv(ws, steps, n);
    hide IsRun, IsActive, OpHolds;
  }

  /** Step `i` claims the invite and so hands out a credential for it. */
  ghost predicate Redeems(ws: seq<World>, steps: seq<Step>, i: nat, inviteId: string)
    requires |ws| == |steps| + 1 && i < |steps|
  {
    && steps[i].Claim? && Enabled(ws[i], steps[i]) && WriteSucceeds(ws[i], steps[i])
    && ws[i].ops[steps[i].caseId].inviteId == inviteId
  }

  lemma OneStepStaysUsed(w: World, s: Step, inviteId: string)
    requires Inv(w) && Enabled(w, s) && Used(w, inviteId)
    ensures Used(Next(w, s), inviteId)
  {
    if s.Claim? {
      assert OpHolds(w, s.caseId, w.ops[s.caseId]);
    }
    hide OpHolds, RestHolds, IsActive, MayRedeem;
  }

  predicate Used(w: World, inviteId: string) {
    inviteId in w.invites && !w.invites[inviteId].pending
  }

  lemma RunLength(ws: seq<World>, steps: seq<Step>)
    requires IsRun(ws, steps)
    ensures |ws| == |steps| + 1
  {
  }

  lemma {:induction false} UsedStaysUsed(ws: seq<World>, steps: seq<Step>, m: nat, n: nat, inviteId: string)
    requires IsRun(ws, steps) && m <= n <= |steps| && Used(ws[m], inviteId)
    ensures Used(ws[n], inviteId)
    decreases n
  {
    hide *;
    RunLength(ws, steps);
    if m < n {
      UsedStaysUsed(ws, steps, m, n - 1, inviteId);
      RunSteps(ws, steps, n - 1);
      OneStepStaysUsed(ws[n - 1], steps[n - 1], inviteId);
    }
  }

  /** An invite is redeemed at most once. */
  lemma RedeemedOnce(ws: seq<World>, steps: seq<Step>, i: nat, j: nat, inviteId: string)
    requires IsRun(ws, steps) && i < j < |steps| && Redeems(ws, steps, i, inviteId)
    ensures !Redeems(ws, steps, j, inviteId)
  {
    assert StepTo(ws[i], steps[i], ws[i + 1]);
    UsedStaysUsed(ws, steps, i + 1, j, inviteId);
    ReachableInv(ws, steps, j);
    InvOps(ws[j]);
    hide IsRun, Next, Inv;
  }

  /** A case is live from its opening to its closing. */
  lemma LiveAfter(w: World, s: Step, c: string)
    requires Enabled(w, s)
    ensures IsLive(Next(w, s), c) <==> s != CloseCase(c) && (IsLive(w, c) || s == OpenCase(c))
  {
    hide WriteSucceeds, WithHeld, MayRedeem, IsActive, Revoked;
  }

  /** What is new has revision 1, and every write of what is stored advances its revision by one. */
  lemma RevisionsAdvance(w: World, s: Step)
    requires Inv(w) && Enabled(w, s)
    ensures var w' := Next(w, s);
            && (forall i :: i in w'.invites ==>
                  if i in w.invites then
                    w'.invites[i] == w.invites[i] || w'.invites[i].revision == w.invites[i].revision + 1
                  else w'.invites[i].revision == 1)
            && (forall ref :: ref in w'.bindings ==>
                  if ref in w.bindings then
                    w'.bindings[ref] == w.bindings[ref] || w'.bindings[ref].revision == w.bindings[ref].revision + 1
                  else w'.bindings[ref].revision == 1)
  {
    WritesNeverFail(w, s);
    var c := CaseOf(w, s);
    if c in w.ops {
      assert OpHolds(w, c, w.ops[c]);
    }
    hide Inv, WithHeld, MayRedeem, IsActive;
  }

  // ---------- Who may redeem ----------

  /** A redeem that does not bring the invite's secret in time, on a live case, to an invite still pending, does
      nothing; any other is under way. */
  lemma RedeemBeginsIff(w: World, inviteId: string, secret: string, deviceId: string, expired: bool)
    requires Enabled(w, BeginRedeem(inviteId, secret, deviceId, expired))
    ensures var w', invite := Next(w, BeginRedeem(inviteId, secret, deviceId, expired)), w.invites[inviteId];
            if invite.pending && !expired && secret == invite.secret && IsLive(w, invite.caseId) then
              w' == w.(ops := w.ops[invite.caseId := Claiming(inviteId, invite, deviceId)])
            else
              w' == w
  {
  }

  /** Invites stay what they were made for. */
  lemma OneStepKeepsInvites(w: World, s: Step, i: string)
    requires Inv(w) && Enabled(w, s) && i in w.invites
    ensures var w' := Next(w, s);
            && i in w'.invites && w'.invites[i].secret == w.invites[i].secret
            && w'.invites[i].caseId == w.invites[i].caseId
  {
    if s.Claim? {
      assert OpHolds(w, s.caseId, w.ops[s.caseId]);
    }
    hide OpHolds, RestHolds, IsActive, MayRedeem, WriteSucceeds, WithHeld;
  }

  /** The invite was there at the start with this secret, or was created with it before step `n`. */
  ghost predicate WasInvited(ws: seq<World>, steps: seq<Step>, n: nat, inviteId: string, c: string, secret: string)
    requires |ws| == |steps| + 1 && n <= |steps|
  {
    || (inviteId in ws[0].invites && ws[0].invites[inviteId].secret == secret && ws[0].invites[inviteId].caseId == c)
    || exists k :: 0 <= k < n && steps[k] == CreateInvite(inviteId, c, secret)
  }

  lemma InvitedStill(ws: seq<World>, steps: seq<Step>, m: nat, n: nat, inviteId: string, c: string, secret: string)
    requires |ws| == |steps| + 1 && m <= n <= |steps| && WasInvited(ws, steps, m, inviteId, c, secret)
    ensures WasInvited(ws, steps, n, inviteId, c, secret)
  {
  }

  lemma InvitedBy(ws: seq<World>, steps: seq<Step>, n: nat, inviteId: string, c: string, secret: string)
    requires |ws| == |steps| + 1 && n < |steps| && steps[n] == CreateInvite(inviteId, c, secret)
    ensures WasInvited(ws, steps, n + 1, inviteId, c, secret)
  {
  }

  lemma {:induction false} InvitesWereMade(ws: seq<World>, steps: seq<Step>, n: nat, i: string)
    requires IsRun(ws, steps) && n <= |steps| && i in ws[n].invites
    ensures WasInvited(ws, steps, n, i, ws[n].invites[i].caseId, ws[n].invites[i].secret)
  {
    if n > 0 {
      hide *;
      RunLength(ws, steps);
      RunSteps(ws, steps, n - 1);
      var w, s, invite := ws[n - 1], steps[n - 1], ws[n].invites[i];
      if i in w.invites {
        InvitesWereMade(ws, steps, n - 1, i);
        OneStepKeepsInvites(w, s, i);
        InvitedStill(ws, steps, n - 1, n, i, invite.caseId, invite.secret);
      } else {
        OnlyCreatingInvites(w, s, i);
        InvitedBy(ws, steps, n - 1, i, invite.caseId, invite.secret);
      }
    }
  }

  lemma OtherStepsKeepInviteIds(w: World, s: Step)
    requires Inv(w) && Enabled(w, s) && !s.CreateInvite?
    ensures Next(w, s).invites.Keys == w.invites.Keys
  {
    if s.Claim? {
      assert OpHolds(w, s.caseId, w.ops[s.caseId]);
    }
    hide OpHolds, RestHolds, IsActive, MayRedeem, WriteSucceeds, WithHeld;
  }

  lemma OnlyCreatingInvites(w: World, s: Step, i: string)
    requires Inv(w) && Enabled(w, s) && i !in w.invites && i in Next(w, s).invites
    ensures s == CreateInvite(i, Next(w, s).invites[i].caseId, Next(w, s).invites[i].secret)
  {
    hide Inv;
    if !s.CreateInvite? {
      OtherStepsKeepInviteIds(w, s);
    }
  }

  /** Step `j` begins the redeem of the invite for this device, in time, with the invite's secret, while the case is
      live. */
  ghost predicate BeginsRightly(ws: seq<World>, steps: seq<Step>, j: nat, inviteId: string, c: string, deviceId: string)
    requires |ws| == |steps| + 1 && j < |steps|
  {
    && steps[j].BeginRedeem? && steps[j].inviteId == inviteId && steps[j].deviceId == deviceId && !steps[j].expired
    && WasInvited(ws, steps, j, inviteId, c, steps[j].secret) && IsLive(ws[j], c)
  }

  lemma OnlyBeginningClaims(w: World, s: Step, c: string)
    requires Inv(w) && Enabled(w, s) && c in Next(w, s).ops && Next(w, s).ops[c].Claiming?
    requires !(c in w.ops && w.ops[c] == Next(w, s).ops[c])
    ensures var op := Next(w, s).ops[c];
            && s.BeginRedeem? && s.inviteId == op.inviteId && s.deviceId == op.deviceId && !s.expired
            && op.inviteId in w.invites && w.invites[op.inviteId].caseId == c
            && s.secret == w.invites[op.inviteId].secret && IsLive(w, c)
  {
    hide Inv, IsActive, WriteSucceeds, WithHeld, Stored, Revoked, IsLive;
  }

  /** Whatever is being claimed was begun rightly. */
  lemma {:induction false} ClaimsBeganRightly(ws: seq<World>, steps: seq<Step>, n: nat, c: string)
    requires IsRun(ws, steps) && n <= |steps| && c in ws[n].ops && ws[n].ops[c].Claiming?
    ensures exists j: nat :: j < n && BeginsRightly(ws, steps, j, ws[n].ops[c].inviteId, c, ws[n].ops[c].deviceId)
  {
    if n > 0 {
      RunSteps(ws, steps, n - 1);
      var w, s, op := ws[n - 1], steps[n - 1], ws[n].ops[c];
      if c in w.ops && w.ops[c] == op {
        hide *;
        RunLength(ws, steps);
        ClaimsBeganRightly(ws, steps, n - 1, c);
        var j: nat :| j < n - 1 && BeginsRightly(ws, steps, j, op.inviteId, c, op.deviceId);
        assert j < n;
      } else {
        OnlyBeginningClaims(w, s, c);
        InvitesWereMade(ws, steps, n - 1, op.inviteId);
        hide Inv, Enabled, Next, IsRun, WasInvited;
        assert BeginsRightly(ws, steps, n - 1, op.inviteId, c, op.deviceId);
      }
    }
  }

  /** Who redeems an invite has begun with its secret, in time, while its case was live. */
  lemma RedeemedWithSecret(ws: seq<World>, steps: seq<Step>, i: nat, inviteId: string)
    requires IsRun(ws, steps) && i < |steps| && Redeems(ws, steps, i, inviteId)
    ensures var c := steps[i].caseId;
            && c in ws[i].ops && ws[i].ops[c].Claiming?
            && exists j: nat :: j < i && BeginsRightly(ws, steps, j, inviteId, c, ws[i].ops[c].deviceId)
  {
    ClaimsBeganRightly(ws, steps, i, steps[i].caseId);
    hide BeginsRightly, WriteSucceeds;
  }

  // ---------- Where a credential comes from ----------

  /** Step `i` redeems an invite of the case for this device, and issues this credential. */
  ghost predicate Issues(ws: seq<World>, steps: seq<Step>, i: nat, c: string, deviceId: string, credential: string)
    requires |ws| == |steps| + 1 && i < |steps|
  {
    && steps[i] == Claim(c, credential) && c in ws[i].ops && ws[i].ops[c].Claiming? && ws[i].ops[c].deviceId == deviceId
    && Redeems(ws, steps, i, ws[i].ops[c].inviteId)
  }

  /** What an operation past its claim is about to write: a device and its credential. */
  predicate Carries(w: World, c: string, deviceId: string, credential: string) {
    && c in w.ops && (w.ops[c].Claimed? || w.ops[c].Upserting?)
    && w.ops[c].deviceId == deviceId && w.ops[c].issued == credential
  }

  lemma OnlyClaimingCarries(w: World, s: Step, c: string, d: string, credential: string)
    requires Inv(w) && Enabled(w, s) && Carries(Next(w, s), c, d, credential)
    ensures Carries(w, c, d, credential)
            || (s == Claim(c, credential) && w.ops[c].deviceId == d && WriteSucceeds(w, s))
  {
    hide OpHolds, RestHolds, IsActive, MayRedeem, WithHeld, Stored;
  }

  lemma OnlyCarriedIsWritten(w: World, s: Step, ref: DeviceRef)
    requires Inv(w) && Enabled(w, s) && ref in Next(w, s).latest
    ensures (ref in w.latest && w.latest[ref] == Next(w, s).latest[ref])
            || Carries(w, ref.caseId, ref.deviceId, Next(w, s).latest[ref])
  {
    hide OpHolds, RestHolds, IsActive, MayRedeem, WithHeld, WriteSucceeds;
  }

  lemma {:induction false} CarriedWasIssued(ws: seq<World>, steps: seq<Step>, n: nat, c: string, d: string,
                                            credential: string)
    requires IsRun(ws, steps) && n <= |steps| && Carries(ws[n], c, d, credential)
    ensures exists i: nat :: i < n && Issues(ws, steps, i, c, d, credential)
  {
    if n > 0 {
      RunSteps(ws, steps, n - 1);
      OnlyClaimingCarries(ws[n - 1], steps[n - 1], c, d, credential);
      if Carries(ws[n - 1], c, d, credential) {
        hide Issues, Carries, Inv, Enabled, Next;
        CarriedWasIssued(ws, steps, n - 1, c, d, credential);
        var i: nat :| i < n - 1 && Issues(ws, steps, i, c, d, credential);
        assert i < n;
      } else {
        hide Inv, Next, WriteSucceeds, IsRun;
        assert Issues(ws, steps, n - 1, c, d, credential);
      }
    }
  }

  lemma InitiallyNothing(ws: seq<World>, steps: seq<Step>)
    requires IsRun(ws, steps)
    ensures |ws| == |steps| + 1 && ws[0].latest == map[] && ws[0].ops == map[]
  {
  }

  /** The credential of a device's latest redeem was issued to that device, by a redeem of an invite of its case. */
  lemma {:induction false} LatestWasIssued(ws: seq<World>, steps: seq<Step>, n: nat, ref: DeviceRef)
    requires IsRun(ws, steps) && n <= |steps| && ref in ws[n].latest
    ensures exists i: nat :: i < n && Issues(ws, steps, i, ref.caseId, ref.deviceId, ws[n].latest[ref])
  {
    hide *;
    InitiallyNothing(ws, steps);
    if n > 0 {
      RunSteps(ws, steps, n - 1);
      OnlyCarriedIsWritten(ws[n - 1], steps[n - 1], ref);
      if ref in ws[n - 1].latest && ws[n - 1].latest[ref] == ws[n].latest[ref] {
        LatestWasIssued(ws, steps, n - 1, ref);
        var i: nat :| i < n - 1 && Issues(ws, steps, i, ref.caseId, ref.deviceId, ws[n].latest[ref]);
        assert i < n;
      } else {
        CarriedWasIssued(ws, steps, n - 1, ref.caseId, ref.deviceId, ws[n].latest[ref]);
        var i: nat :| i < n - 1 && Issues(ws, steps, i, ref.caseId, ref.deviceId, ws[n].latest[ref]);
        assert i < n;
      }
    }
  }

  // ---------- Who is let in ----------

  /** `resolveEdgeBinding`. */
  predicate Resolves(w: World, caseId: string, ref: DeviceRef, deviceId: string, credential: string) {
    && ref in w.bindings && w.bindings[ref].active
    && IsLive(w, caseId) && ref == DeviceRef(caseId, deviceId)
    && credential == w.bindings[ref].credential
  }

  /** Exactly the credential of the device's latest redeem opens, while its binding is active and its case is open. */
  lemma LatestCredentialOpens(ws: seq<World>, steps: seq<Step>, n: nat, caseId: string, ref: DeviceRef,
                              deviceId: string, credential: string)
    requires IsRun(ws, steps) && n <= |steps|
    ensures Resolves(ws[n], caseId, ref, deviceId, credential) <==>
              && ref == DeviceRef(caseId, deviceId) && ref in ws[n].latest && ws[n].latest[ref] == credential
              && IsActive(ws[n], caseId, deviceId) && IsLive(ws[n], caseId)
  {
    ReachableInv(ws, steps, n);
  }

  /** So whoever is let in holds a credential issued to this device by a redeem that began with an invite's secret, in
      time, while the case was live. */
  lemma LetInByInvite(ws: seq<World>, steps: seq<Step>, n: nat, caseId: string, ref: DeviceRef, deviceId: string,
                      credential: string)
    requires IsRun(ws, steps) && n <= |steps| && Resolves(ws[n], caseId, ref, deviceId, credential)
    ensures exists inviteId, j: nat, i: nat :: j < i < n
              && Issues(ws, steps, i, caseId, deviceId, credential)
              && BeginsRightly(ws, steps, j, inviteId, caseId, deviceId)
  {
    LatestCredentialOpens(ws, steps, n, caseId, ref, deviceId, credential);
    LatestWasIssued(ws, steps, n, ref);
    var i: nat :| i < n && Issues(ws, steps, i, caseId, deviceId, credential);
    var inviteId := ws[i].ops[caseId].inviteId;
    RedeemedWithSecret(ws, steps, i, inviteId);
    hide IsRun, Resolves, Redeems, BeginsRightly;
    var j: nat :| j < i && BeginsRightly(ws, steps, j, inviteId, caseId, deviceId);
  }
}
