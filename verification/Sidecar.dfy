/** The sidecar daemon's command handlers. Each method is one stretch of a handler between two awaits, so any order of
    calls is an interleaving of handlers, of duplicated and of reordered commands; the invariant holds through all of
    them. A run is known by the number of its assignment: handlers keep hold of the run they began with. */
module Sidecar {
  import opened Basics

  datatype Run = Run(
    sessionId: string,
    leaseId: string,
    ready: bool,
    accepted: map<nat, string>,
    resolvedInteractions: set<string>,
    inFlightInteractions: set<string>,
    resolvedTools: set<string>)

  /** A pause is asked for per session and lease. */
  datatype PauseKey = PauseKey(sessionId: string, leaseId: string)

  datatype Paused = Paused(reason: string, snapshot: Option<string>)

  datatype PauseInFlight = Pausing(run: nat, reason: string, capture: bool) | Publishing

  datatype Reply =
    | UnknownSession | StaleLease | Conflict | Accepted | Sent
    | Waits | Republished | Begun | Answered | Ignored

  predicate NoRepeats<T(==)>(s: seq<T>) {
    forall i, j :: 0 <= i < j < |s| ==> s[i] != s[j]
  }

  lemma NoRepeatsAppend<T>(s: seq<T>, x: T)
    requires NoRepeats(s) && x !in s
    ensures NoRepeats(s + [x])
  {
  }

  class Daemon {
    var active: map<string, nat>
    var runs: map<nat, Run>
    var assignments: nat
    var inFlightPauses: map<PauseKey, PauseInFlight>
    var completedPauses: map<PauseKey, Paused>
    /** What has reached the agent, the workspace and the bus. */
    ghost var sent: seq<(nat, nat)>
    ghost var toolAnswers: seq<(nat, string)>
    ghost var interactionAnswers: seq<(nat, string)>
    ghost var captures: seq<nat>
    ghost var published: seq<(PauseKey, Paused)>
    /** How much had been published when a session was last assigned. */
    ghost var since: map<string, nat>

    ghost predicate Valid()
      reads this
    {
      && RunsValid(active, runs, assignments)
      && OnceEach(runs, sent, toolAnswers, interactionAnswers)
      && PausesValid(active, runs, inFlightPauses, completedPauses, captures)
      && PublishedValid(published, since, completedPauses)
    }

    constructor ()
      ensures Valid() && runs == map[] && active == map[] && completedPauses == map[] && inFlightPauses == map[]
    {
      active, runs, assignments, inFlightPauses, completedPauses := map[], map[], 0, map[], map[];
      sent, toolAnswers, interactionAnswers, captures, published, since := [], [], [], [], [], map[];
    }

    /** `handleAssign`: a fresh run replaces whatever the session had. No pause of the session is in flight. */
    method HandleAssign(sessionId: string, leaseId: string) returns (run: nat)
      requires Valid() && forall k :: k in inFlightPauses ==> k.sessionId != sessionId
      modifies this
      ensures Valid() && run == old(assignments) && active == old(active)[sessionId := run]
      ensures runs == old(runs)[run := Run(sessionId, leaseId, false, map[], {}, {}, {})]
      ensures completedPauses == Forgetting(old(completedPauses), sessionId)
      ensures sent == old(sent) && toolAnswers == old(toolAnswers) && interactionAnswers == old(interactionAnswers)
      ensures captures == old(captures) && published == old(published) && inFlightPauses == old(inFlightPauses)
      ensures since == old(since)[sessionId := |published|]
    {
      AssignKeepsRuns(active, runs, assignments, sessionId, leaseId);
      hide RunsValid;
      NewRunKeepsLogs(runs, assignments, Run(sessionId, leaseId, false, map[], {}, {}, {}), sent, toolAnswers,
                      interactionAnswers);
      hide OnceEach;
      AssignKeepsPauses(active, runs, assignments, inFlightPauses, completedPauses, captures, sessionId, leaseId);
      hide PausesValid;
      AssignForgets(published, since, completedPauses, sessionId);
      hide PublishedValid, Forgetting;
      completedPauses := Forgetting(completedPauses, sessionId);
      run := assignments;
      assignments := assignments + 1;
      runs := runs[run := Run(sessionId, leaseId, false, map[], {}, {}, {})];
      active := active[sessionId := run];
      since := since[sessionId := |published|];
    }

    /** The agent started, or failed to; a failure drops whatever run the session has by then. */
    method Started(run: nat, ok: bool)
      requires Valid() && run in runs
      modifies this`runs, this`active
      ensures Valid()
      ensures ok ==> runs == old(runs)[run := old(runs)[run].(ready := true)] && active == old(active)
      ensures !ok ==> runs == old(runs) && active == old(active) - {old(runs)[run].sessionId}
    {
      if ok {
        runs := runs[run := runs[run].(ready := true)];
      } else {
        active := active - {runs[run].sessionId};
      }
    }

    /** `handleInput` up to waiting for the agent. */
    method InputArrives(sessionId: string, leaseId: string) returns (reply: Reply, run: nat)
      requires Valid()
      ensures reply.UnknownSession? <==> sessionId !in active
      ensures reply.StaleLease? <==> sessionId in active && runs[active[sessionId]].leaseId != leaseId
      ensures reply.Waits? || reply.UnknownSession? || reply.StaleLease?
      ensures reply.Waits? ==> sessionId in active && run == active[sessionId]
      ensures reply.Waits? ==> run in runs && runs[run].sessionId == sessionId && runs[run].leaseId == leaseId
    {
      run := 0;
      if sessionId !in active {
        return UnknownSession, 0;
      }
      run := active[sessionId];
      reply := if runs[run].leaseId != leaseId then StaleLease else Waits;
    }

    /** `handleInput` once the agent is ready: a turn goes to the agent only the first time, however many handlers were
        waiting with it. */
    method InputResumes(run: nat, turnSeq: nat, digest: string) returns (reply: Reply)
      requires Valid() && run in runs && runs[run].ready
      modifies this`runs, this`sent
      ensures Valid()
      ensures reply.Sent? <==> turnSeq !in old(runs)[run].accepted
      ensures reply.Sent? ==>
                sent == old(sent) + [(run, turnSeq)] && runs[run].accepted == old(runs)[run].accepted[turnSeq := digest]
      ensures reply.Sent? ==>
                runs == old(runs)[run := old(runs)[run].(accepted := old(runs)[run].accepted[turnSeq := digest])]
      ensures !reply.Sent? ==> sent == old(sent) && runs == old(runs)
      ensures reply.Conflict? <==> turnSeq in old(runs)[run].accepted && old(runs)[run].accepted[turnSeq] != digest
      ensures reply.Sent? || reply.Conflict? || reply.Accepted?
    {
      var active := runs[run];
      if turnSeq in active.accepted {
        return if active.accepted[turnSeq] != digest then Conflict else Accepted;
      }
      runs := runs[run := active.(accepted := active.accepted[turnSeq := digest])];
      SendOnce(old(runs), sent, run, turnSeq);
      sent := sent + [(run, turnSeq)];
      return Sent;
    }

    /** `handleRuntimeToolResponse`. */
    method ToolResponse(sessionId: string, leaseId: string, requestId: string) returns (reply: Reply)
      requires Valid()
      modifies this`runs, this`toolAnswers
      ensures Valid()
      ensures reply.Answered? ==>
                && sessionId in active && runs[active[sessionId]].leaseId == leaseId
                && requestId !in old(runs)[active[sessionId]].resolvedTools
                && toolAnswers == old(toolAnswers) + [(active[sessionId], requestId)]
                && runs == old(runs)[active[sessionId] := old(runs)[active[sessionId]].(
                     resolvedTools := old(runs)[active[sessionId]].resolvedTools + {requestId})]
      ensures !reply.Answered? ==> toolAnswers == old(toolAnswers) && runs == old(runs)
      ensures reply.Ignored? ==> sessionId in active && requestId in runs[active[sessionId]].resolvedTools
      ensures reply.UnknownSession? <==> sessionId !in active
      ensures reply.StaleLease? <==> sessionId in active && old(runs)[active[sessionId]].leaseId != leaseId
      ensures reply.Ignored? <==>
                && sessionId in active && old(runs)[active[sessionId]].leaseId == leaseId
                && requestId in old(runs)[active[sessionId]].resolvedTools
      ensures reply.UnknownSession? || reply.StaleLease? || reply.Ignored? || reply.Answered?
    {
      if sessionId !in active {
        return UnknownSession;
      }
      var run := active[sessionId];
      var state := runs[run];
      if state.leaseId != leaseId {
        return StaleLease;
      }
      if requestId in state.resolvedTools {
        return Ignored;
      }
      runs := runs[run := state.(resolvedTools := state.resolvedTools + {requestId})];
      AnswerToolOnce(old(runs), toolAnswers, run, requestId);
      toolAnswers := toolAnswers + [(run, requestId)];
      return Answered;
    }

    /** `handleInteractionResponse` up to handing the response to the agent. */
    method InteractionArrives(sessionId: string, leaseId: string, eventId: string) returns (reply: Reply, run: nat)
      requires Valid()
      modifies this`runs
      ensures Valid()
      ensures reply.Begun? ==>
                && run in old(runs) && eventId !in old(runs)[run].resolvedInteractions
                && eventId !in old(runs)[run].inFlightInteractions
                && var pending := old(runs)[run].inFlightInteractions + {eventId};
                   runs == old(runs)[run := old(runs)[run].(inFlightInteractions := pending)]
      ensures !reply.Begun? ==> runs == old(runs)
      ensures reply.UnknownSession? <==> sessionId !in active
      ensures sessionId in active ==> run == active[sessionId]
      ensures reply.StaleLease? <==> sessionId in active && old(runs)[run].leaseId != leaseId
      ensures sessionId in active && old(runs)[run].leaseId == leaseId ==>
                && (reply.Accepted? <==> eventId in old(runs)[run].resolvedInteractions)
                && (reply.Waits? <==> eventId in old(runs)[run].inFlightInteractions)
      ensures reply.UnknownSession? || reply.StaleLease? || reply.Accepted? || reply.Waits? || reply.Begun?
    {
      run := 0;
      if sessionId !in active {
        return UnknownSession, 0;
      }
      run := active[sessionId];
      var state := runs[run];
      if state.leaseId != leaseId {
        return StaleLease, run;
      }
      if eventId in state.resolvedInteractions {
        return Accepted, run;
      }
      if eventId in state.inFlightInteractions {
        return Waits, run;
      }
      runs := runs[run := state.(inFlightInteractions := state.inFlightInteractions + {eventId})];
      return Begun, run;
    }

    /** The agent took the response, or refused it; only then may it be tried again. */
    method InteractionEnds(run: nat, eventId: string, ok: bool)
      requires Valid() && run in runs && eventId in runs[run].inFlightInteractions
      modifies this`runs, this`interactionAnswers
      ensures Valid()
      ensures interactionAnswers == old(interactionAnswers) + if ok then [(run, eventId)] else []
      ensures run in runs && eventId !in runs[run].inFlightInteractions
      ensures eventId in runs[run].resolvedInteractions <==> ok
    {
      var state := runs[run];
      var rest := state.(inFlightInteractions := state.inFlightInteractions - {eventId});
      if ok {
        runs := runs[run := rest.(resolvedInteractions := rest.resolvedInteractions + {eventId})];
        AnswerInteractionOnce(old(runs), interactionAnswers, run, eventId);
        interactionAnswers := interactionAnswers + [(run, eventId)];
      } else {
        runs := runs[run := rest];
        assert interactionAnswers == old(interactionAnswers) + [];
      }
    }

    /** `handlePause` up to working on the run: a pause in flight is waited for, a completed one is published again as
        it was. */
    method HandlePause(sessionId: string, leaseId: string, reason: string, capture: bool) returns (reply: Reply)
      requires Valid()
      modifies this`inFlightPauses, this`published
      ensures Valid()
      ensures var k := PauseKey(sessionId, leaseId);
              && (reply.Waits? <==> k in old(inFlightPauses))
              && (reply.Republished? <==> k !in old(inFlightPauses) && k in completedPauses)
              && (reply.Republished? ==> published == old(published) + [(k, completedPauses[k])])
              && (reply.Begun? ==> k !in completedPauses && sessionId in active
                                   && inFlightPauses == old(inFlightPauses)[k := Pausing(active[sessionId], reason,
                                                                                         capture)])
      ensures var k := PauseKey(sessionId, leaseId);
              k !in old(inFlightPauses) && k !in completedPauses ==>
                && (reply.UnknownSession? <==> sessionId !in active)
                && (reply.StaleLease? <==> sessionId in active && runs[active[sessionId]].leaseId != leaseId)
                && (reply.Begun? <==> sessionId in active && runs[active[sessionId]].leaseId == leaseId)
      ensures !reply.Begun? ==> inFlightPauses == old(inFlightPauses)
      ensures !reply.Republished? ==> published == old(published)
      ensures PublishedAlike(published, since)
    {
      var k := PauseKey(sessionId, leaseId);
      if k in inFlightPauses {
        return Waits;
      }
      if k in completedPauses {
        published := published + [(k, completedPauses[k])];
        return Republished;
      }
      if sessionId !in active {
        return UnknownSession;
      }
      var run := active[sessionId];
      if runs[run].leaseId != leaseId {
        return StaleLease;
      }
      inFlightPauses := inFlightPauses[k := Pausing(run, reason, capture)];
      return Begun;
    }

    /** The run is stopped and, if asked for, captured: the pause is complete and published. */
    method PauseCompletes(k: PauseKey, snapshot: string)
      requires Valid() && k in inFlightPauses && inFlightPauses[k].Pausing?
      modifies this
      ensures Valid() && k !in old(completedPauses)
      ensures var p := old(inFlightPauses)[k];
              var paused := Paused(p.reason, if p.capture then Some(snapshot) else None);
              && completedPauses == old(completedPauses)[k := paused]
              && active == old(active) - {k.sessionId} && captures == old(captures) + [p.run] && p.run !in old(captures)
              && published == old(published) + [(k, completedPauses[k])]
              && inFlightPauses == old(inFlightPauses)[k := Publishing]
      ensures PublishedAlike(published, since) && since == old(since)
      ensures runs == old(runs) && sent == old(sent) && toolAnswers == old(toolAnswers)
      ensures interactionAnswers == old(interactionAnswers)
      ensures assignments == old(assignments)
    {
      var p := inFlightPauses[k];
      var paused := Paused(p.reason, if p.capture then Some(snapshot) else None);
      PublishCompleted(published, since, completedPauses, k, paused);
      CompletionKeepsPauses(active, runs, inFlightPauses, completedPauses, captures, k, paused);
      hide PublishedValid, OnceEach, PausesValid, PublishedAlike;
      active := active - {k.sessionId};
      completedPauses := completedPauses[k := paused];
      inFlightPauses := inFlightPauses[k := Publishing];
      published := published + [(k, completedPauses[k])];
      captures := captures + [p.run];
    }

    /** The pause handler is done, or has failed on the way. */
    method PauseEnds(k: PauseKey)
      requires Valid() && k in inFlightPauses
      modifies this`inFlightPauses
      ensures Valid() && inFlightPauses == old(inFlightPauses) - {k}
    {
      inFlightPauses := inFlightPauses - {k};
    }
  }

  // ---------- Invariant ----------

  ghost predicate RunsValid(active: map<string, nat>, runs: map<nat, Run>, assignments: nat) {
    && (forall r :: r in runs ==> r < assignments && runs[r].inFlightInteractions !! runs[r].resolvedInteractions)
    && forall s :: s in active ==> active[s] in runs && runs[active[s]].sessionId == s
  }

  /** Nothing reaches the agent twice: each log entry is remembered in its run and occurs once. */
  ghost predicate OnceEach(runs: map<nat, Run>, sent: seq<(nat, nat)>, tools: seq<(nat, string)>,
                           interactions: seq<(nat, string)>) {
    && NoRepeats(sent) && NoRepeats(tools) && NoRepeats(interactions)
    && (forall x :: x in sent ==> x.0 in runs && x.1 in runs[x.0].accepted)
    && (forall x :: x in tools ==> x.0 in runs && x.1 in runs[x.0].resolvedTools)
    && forall x :: x in interactions ==> x.0 in runs && x.1 in runs[x.0].resolvedInteractions
  }

  /** A captured run is no longer active; a pause in flight belongs to its own run, not captured yet. */
  ghost predicate PausesValid(active: map<string, nat>, runs: map<nat, Run>, inFlight: map<PauseKey, PauseInFlight>,
                              completed: map<PauseKey, Paused>, captures: seq<nat>) {
    && NoRepeats(captures)
    && (forall s :: s in active ==> active[s] !in captures)
    && (forall r :: r in captures ==> r in runs)
    && forall k :: k in inFlight && inFlight[k].Pausing? ==>
         && k !in completed && inFlight[k].run in runs && inFlight[k].run !in captures
         && runs[inFlight[k].run].sessionId == k.sessionId && runs[inFlight[k].run].leaseId == k.leaseId
  }

  /** The completed pauses of the other sessions. */
  function Forgetting(completed: map<PauseKey, Paused>, sessionId: string): map<PauseKey, Paused> {
    map k | k in completed && k.sessionId != sessionId :: completed[k]
  }

  /** How much had been published when the session of this pause was last assigned. */
  function SinceAssigned(since: map<string, nat>, k: PauseKey): nat {
    if k.sessionId in since then since[k.sessionId] else 0
  }

  /** What was published since a session's last assignment is the completed pause as remembered. */
  ghost predicate PublishedValid(published: seq<(PauseKey, Paused)>, since: map<string, nat>,
                                 completed: map<PauseKey, Paused>) {
    && (forall s :: s in since ==> since[s] <= |published|)
    && forall i :: 0 <= i < |published| && SinceAssigned(since, published[i].0) <= i ==>
         published[i].0 in completed && completed[published[i].0] == published[i].1
  }

  /** Since a session's last assignment every publication of a pause is the same. */
  ghost predicate PublishedAlike(published: seq<(PauseKey, Paused)>, since: map<string, nat>) {
    forall i, j :: 0 <= i < |published| && 0 <= j < |published| && published[i].0 == published[j].0
                   && SinceAssigned(since, published[i].0) <= i && SinceAssigned(since, published[j].0) <= j ==>
                   published[i] == published[j]
  }

  lemma AssignKeepsRuns(active: map<string, nat>, runs: map<nat, Run>, run: nat, sessionId: string, leaseId: string)
    requires RunsValid(active, runs, run)
    ensures run !in runs
    ensures RunsValid(active[sessionId := run], runs[run := Run(sessionId, leaseId, false, map[], {}, {}, {})], run + 1)
  {
  }

  lemma NewRunKeepsLogs(runs: map<nat, Run>, run: nat, started: Run, sent: seq<(nat, nat)>, tools: seq<(nat, string)>,
                        interactions: seq<(nat, string)>)
    requires OnceEach(runs, sent, tools, interactions) && run !in runs
    ensures OnceEach(runs[run := started], sent, tools, interactions)
  {
    hide NoRepeats;
  }

  lemma AssignKeepsPauses(active: map<string, nat>, runs: map<nat, Run>, run: nat,
                          inFlight: map<PauseKey, PauseInFlight>,
                          completed: map<PauseKey, Paused>, captures: seq<nat>, sessionId: string, leaseId: string)
    requires PausesValid(active, runs, inFlight, completed, captures) && run !in runs
    ensures PausesValid(active[sessionId := run], runs[run := Run(sessionId, leaseId, false, map[], {}, {}, {})],
                        inFlight,
                        Forgetting(completed, sessionId), captures)
  {
    hide NoRepeats;
  }

  /** An assignment forgets the session's pauses, so nothing published before it counts any more. */
  lemma AssignForgets(published: seq<(PauseKey, Paused)>, since: map<string, nat>, completed: map<PauseKey, Paused>,
                      sessionId: string)
    requires PublishedValid(published, since, completed)
    ensures PublishedValid(published, since[sessionId := |published|], Forgetting(completed, sessionId))
  {
    var since', kept := since[sessionId := |published|], Forgetting(completed, sessionId);
    forall i | 0 <= i < |published| && SinceAssigned(since', published[i].0) <= i
      ensures published[i].0 in kept && kept[published[i].0] == published[i].1
    {
      assert published[i].0.sessionId != sessionId;
    }
  }

  lemma CompletionKeepsPauses(active: map<string, nat>, runs: map<nat, Run>, inFlight: map<PauseKey, PauseInFlight>,
                              completed: map<PauseKey, Paused>, captures: seq<nat>, k: PauseKey, p: Paused)
    requires PausesValid(active, runs, inFlight, completed, captures) && k in inFlight && inFlight[k].Pausing?
    requires forall s :: s in active ==> active[s] in runs && runs[active[s]].sessionId == s
    ensures PausesValid(active - {k.sessionId}, runs, inFlight[k := Publishing], completed[k := p],
                        captures + [inFlight[k].run])
    ensures k !in completed && inFlight[k].run !in captures
  {
    NoRepeatsAppend(captures, inFlight[k].run);
    hide NoRepeats;
  }

  lemma PublishCompleted(published: seq<(PauseKey, Paused)>, since: map<string, nat>, completed: map<PauseKey, Paused>,
                         k: PauseKey,
                         p: Paused)
    requires PublishedValid(published, since, completed) && k !in completed
    ensures PublishedValid(published + [(k, p)], since, completed[k := p])
    ensures PublishedAlike(published + [(k, p)], since)
  {
  }

  lemma SendOnce(runs: map<nat, Run>, sent: seq<(nat, nat)>, run: nat, turnSeq: nat)
    requires NoRepeats(sent) && forall x :: x in sent ==> x.0 in runs && x.1 in runs[x.0].accepted
    requires run in runs && turnSeq !in runs[run].accepted
    ensures NoRepeats(sent + [(run, turnSeq)])
  {
    NoRepeatsAppend(sent, (run, turnSeq));
  }

  lemma AnswerToolOnce(runs: map<nat, Run>, tools: seq<(nat, string)>, run: nat, requestId: string)
    requires NoRepeats(tools) && forall x :: x in tools ==> x.0 in runs && x.1 in runs[x.0].resolvedTools
    requires run in runs && requestId !in runs[run].resolvedTools
    ensures NoRepeats(tools + [(run, requestId)])
  {
    NoRepeatsAppend(tools, (run, requestId));
  }

  lemma AnswerInteractionOnce(runs: map<nat, Run>, interactions: seq<(nat, string)>, run: nat, eventId: string)
    requires NoRepeats(interactions)
    requires forall x :: x in interactions ==> x.0 in runs && x.1 in runs[x.0].resolvedInteractions
    requires run in runs && eventId !in runs[run].resolvedInteractions
    ensures NoRepeats(interactions + [(run, eventId)])
  {
    NoRepeatsAppend(interactions, (run, eventId));
  }
}
