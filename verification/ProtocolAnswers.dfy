/** Where a stored result comes from: a call that returns one has changed its document,
    or was told by its request that nothing had to change. And a rollback only ever
    touches the document its earlier snapshot was read from. */
module ProtocolAnswers {
  import opened Bytes
  import opened Documents
  import opened Patch
  import opened Protocol
  import opened ProtocolSafety
  import opened ProtocolSerial
  import opened ProtocolRollback
  import opened ProtocolStaging
  import Resolve

  /** The call has renamed or unlinked. */
  ghost predicate Committed(w: World, pid: nat, request: Request) {
    exists c :: c in w.commits && c.pid == pid && c.request == request
  }

  /** The result is the request's answer to a document that needs no change. */
  ghost predicate Answered(toml: Toml, request: Request, result: SaveResult) {
    exists current :: Planned(toml, request, current) == Answer(result)
  }

  ghost predicate ProcessAnswers(toml: Toml, w: World, pid: nat, p: Process) {
    && (p.phase.Replaced? ==> Committed(w, pid, p.request))
    && (p.phase.Done? && Stored(p.phase.result.status) ==>
         Committed(w, pid, p.request) || Answered(toml, p.request, p.phase.result))
    && (p.phase.Done? && p.phase.result.status == Success ==> !p.faulted)
    && (p.phase.Done? && p.phase.result.status == DurabilityFailure ==> p.faulted && Committed(w, pid, p.request))
    && (!p.phase.Start? && !p.phase.Done? ==> RollbackTargetMatches(TargetOf(p.phase), p.request))
  }

  ghost predicate AnswerInv(toml: Toml, w: World) {
    && (forall pid :: pid in w.processes ==> ProcessAnswers(toml, w, pid, w.processes[pid]))
    && (forall c :: c in w.commits ==> RollbackTargetMatches(c.target, c.request))
  }

  lemma CommittedOnward(w: World, after: World, pid: nat, request: Request)
    requires w.commits <= after.commits && Committed(w, pid, request)
    ensures Committed(after, pid, request)
  {
    var c :| c in w.commits && c.pid == pid && c.request == request;
    assert c in after.commits;
  }

  lemma AnswersOnward(toml: Toml, w: World, after: World, pid: nat, p: Process)
    requires w.commits <= after.commits && ProcessAnswers(toml, w, pid, p)
    ensures ProcessAnswers(toml, after, pid, p)
  {
    hide Committed, Answered, RollbackTargetMatches;
    if Committed(w, pid, p.request) {
      CommittedOnward(w, after, pid, p.request);
    }
  }

  /** A stored result returned before any change is an answer. */
  lemma StoredReturn(toml: Toml, w: World, p: Process, ok: bool)
    requires EffectOf(toml, w, p, ok).Return? && !p.phase.Replaced?
    requires Stored(EffectOf(toml, w, p, ok).result.status)
    ensures Answered(toml, p.request, EffectOf(toml, w, p, ok).result)
  {
    hide Planned, ParseRevision, RollbackTargetMatches;
    var target := p.phase.target;
    var current := ReadDocument(toml, w.docs, target).snapshot;
    assert Planned(toml, p.request, current) == Answer(EffectOf(toml, w, p, ok).result);
  }

  /** Success is returned by a step that did not fail, a durability failure by one that
      did, after the change. */
  lemma ReturnedStatus(toml: Toml, w: World, p: Process, ok: bool)
    requires EffectOf(toml, w, p, ok).Return?
    ensures EffectOf(toml, w, p, ok).result.status == Success ==> ok
    ensures EffectOf(toml, w, p, ok).result.status == DurabilityFailure ==> !ok && p.phase.Replaced?
  {
    hide Planned, ParseRevision, RollbackTargetMatches;
    if ok && p.phase.Confirmed? {
      var read := ReadDocument(toml, w.docs, p.phase.target);
      if read.Parsed? {
        AnswerStatus(toml, p.request, read.snapshot);
      }
    }
  }

  lemma AnswerStatus(toml: Toml, request: Request, current: Snapshot)
    requires Planned(toml, request, current).Answer?
    ensures Planned(toml, request, current).result.status != DurabilityFailure
  {
    hide Normalize, PlanAll, ConflictsBeforeStop, DiagnosticsOf;
  }

  /** A call works on one target, which the rollback's check has accepted. */
  lemma MoveTarget(toml: Toml, w: World, p: Process, ok: bool)
    requires EffectOf(toml, w, p, ok).Move?
    requires !p.phase.Start? && !p.phase.Done? ==> RollbackTargetMatches(TargetOf(p.phase), p.request)
    ensures RollbackTargetMatches(TargetOf(EffectOf(toml, w, p, ok).phase), p.request)
  {
    hide Planned, ParseRevision, Resolve.Normal;
  }

  lemma EffectAnswers(toml: Toml, w: World, pid: nat, ok: bool)
    requires pid in w.processes && ProcessAnswers(toml, w, pid, w.processes[pid])
    requires EffectOk(toml, w, w.processes[pid], EffectOf(toml, w, w.processes[pid], ok))
    ensures var after := Perform(w, pid, EffectOf(toml, w, w.processes[pid], ok), ok);
      && pid in after.processes && w.commits <= after.commits
      && ProcessAnswers(toml, after, pid, after.processes[pid])
      && forall c :: c in after.commits ==> c in w.commits || RollbackTargetMatches(c.target, c.request)
  {
    hide EffectOf, Committed, Answered, RollbackTargetMatches, AfterWrite, PhaseOk, SectionOf;
    var p := w.processes[pid];
    var effect := EffectOf(toml, w, p, ok);
    var after := Perform(w, pid, effect, ok);
    match effect {
      case Move(_) => MoveTarget(toml, w, p, ok);
      case Write(work) =>
        OwnCommit(w, after, pid, p.request);
      case Return(result, _) =>
        ReturnedStatus(toml, w, p, ok);
        if p.phase.Replaced? {
          CommittedOnward(w, after, pid, p.request);
        } else if Stored(result.status) {
          StoredReturn(toml, w, p, ok);
        }
      case _ =>
        AnswersOnward(toml, w, after, pid, p);
    }
  }

  lemma OwnCommit(w: World, after: World, pid: nat, request: Request)
    requires after.commits != [] && after.commits[|after.commits| - 1].pid == pid
    requires after.commits[|after.commits| - 1].request == request
    ensures Committed(after, pid, request)
  {
    assert after.commits[|after.commits| - 1] in after.commits;
  }

  lemma StepAnswers(toml: Toml, w: World, pid: nat, ok: bool)
    requires AnswerInv(toml, w) && pid in w.processes && ProcessOk(toml, w, pid)
    ensures AnswerInv(toml, Perform(w, pid, EffectOf(toml, w, w.processes[pid], ok), ok))
  {
    hide EffectOf, EffectOk, ProcessOk, ProcessAnswers, RollbackTargetMatches, AfterWrite, SectionOf;
    EffectIsOk(toml, w, pid, ok);
    EffectAnswers(toml, w, pid, ok);
    var after := Perform(w, pid, EffectOf(toml, w, w.processes[pid], ok), ok);
    forall other | other in after.processes ensures ProcessAnswers(toml, after, other, after.processes[other]) {
      if other != pid {
        AnswersOnward(toml, w, after, other, w.processes[other]);
      }
    }
  }

  /** What changes neither a commit nor a process keeps the invariant, and so do a new
      process and a death. */
  lemma QuietAnswers(toml: Toml, w: World, after: World)
    requires AnswerInv(toml, w) && after.commits == w.commits
    requires forall pid :: pid in after.processes ==>
      (pid in w.processes && after.processes[pid] == w.processes[pid]) || after.processes[pid].phase == Start
    ensures AnswerInv(toml, after)
  {
    hide Committed, Answered, RollbackTargetMatches;
    forall pid | pid in after.processes ensures ProcessAnswers(toml, after, pid, after.processes[pid]) {
      if after.processes[pid].phase != Start {
        AnswersOnward(toml, w, after, pid, w.processes[pid]);
      }
    }
  }

  lemma ActAnswers(toml: Toml, w: World, action: Action)
    requires AnswerInv(toml, w) && Inv(toml, w)
    ensures AnswerInv(toml, Act(toml, w, action))
  {
    hide EffectOf, ProcessOk, LockOk, CommitOk, Perform, AnswerInv;
    if action.Step? && action.pid in w.processes {
      assert ProcessOk(toml, w, action.pid);
      StepAnswers(toml, w, action.pid, action.ok);
      QuietAnswers(toml, Perform(w, action.pid, EffectOf(toml, w, w.processes[action.pid], action.ok), action.ok),
                   Act(toml, w, action));
    } else {
      QuietAnswers(toml, w, Act(toml, w, action));
    }
  }

  lemma {:induction false} RunAnswers(toml: Toml, w: World, actions: seq<Action>)
    requires Initial(w)
    ensures AnswerInv(toml, Run(toml, w, actions))
  {
    hide Act, ProcessAnswers;
    if actions != [] {
      RunAnswers(toml, w, actions[..|actions| - 1]);
      RunKeeps(toml, w, actions[..|actions| - 1]);
      ActAnswers(toml, Run(toml, w, actions[..|actions| - 1]), actions[|actions| - 1]);
    }
  }

  /** In every run: a call that reports success has met no fault, and one that reports a
      durability failure has changed its document and then failed to make it durable. */
  lemma StatusTells(toml: Toml, w: World, actions: seq<Action>, pid: nat)
    requires Initial(w) && pid in Run(toml, w, actions).processes && Run(toml, w, actions).processes[pid].phase.Done?
    ensures var after := Run(toml, w, actions);
      var p := after.processes[pid];
      && (p.phase.result.status == Success ==> !p.faulted)
      && (p.phase.result.status == DurabilityFailure ==>
           p.faulted && exists c :: c in after.commits && c.pid == pid && c.request == p.request)
  {
    hide Run, Answered;
    RunAnswers(toml, w, actions);
    assert ProcessAnswers(toml, Run(toml, w, actions), pid, Run(toml, w, actions).processes[pid]);
  }

  /** In every run, a rollback only ever changes the document that its earlier snapshot
      was read from: none without a recorded path, and only at that path's normal form. */
  lemma RollbacksGoWhereRecorded(toml: Toml, w: World, actions: seq<Action>, c: Update)
    requires Initial(w) && c in Run(toml, w, actions).commits && c.request.Restore?
    ensures c.request.previous.path.Some? && c.target == Resolve.Normal(c.request.previous.path.value)
  {
    hide Run, ProcessAnswers, Resolve.Normal;
    RunAnswers(toml, w, actions);
  }

  // ---------------------------------------------------------------------------
  // Rollbacks that succeed

  /** A staging call that changed the document has left other bytes. */
  lemma StagedDiffers(toml: Toml, c: Update)
    requires Justified(toml, c) && c.request.Stage?
    ensures c.now.present && c.now.bytes != c.seen.revision.bytes
  {
    hide Patched, ParseRevision;
    StagedIsPresent(toml, c);
  }

  /** The rollback of a change is never answered with success. */
  lemma RollbackIsNoAnswer(toml: Toml, request: Request, staged: Revision, previous: Snapshot, result: SaveResult)
    requires request.Restore? && request.staged == staged && request.previous == previous && staged.present
    requires previous.revision.present ==> staged.bytes != previous.revision.bytes
    requires Answered(toml, request, result)
    ensures !Stored(result.status)
  {
    hide DiagnosticsOf;
    var current :| Planned(toml, request, current) == Answer(result);
    if current.revision == staged && previous.revision.present {
      PreparedBytes(toml, previous, request.schema);
    }
  }

  lemma PreparedBytes(toml: Toml, previous: Snapshot, schema: Schema)
    requires previous.revision.present
    ensures var prepared := PrepareRestore(toml, previous, schema);
      && (prepared.status == Success ==> prepared.snapshot.Some? && prepared.snapshot.value.revision == previous.revision)
      && prepared.status != DurabilityFailure
  {
    hide DiagnosticsOf;
  }

  /** In every run of any number of calls and other programs: when a rollback with what
      a staging call returned reports that it stored, it has renamed or unlinked, at the
      target of the staging call, and has left exactly what the staging call had
      replaced, byte for byte or missing; and it has replaced exactly what the staging
      call had left, unless another program wrote after the rollback's final re-read. */
  lemma StoredRollbackRestores(toml: Toml, w: World, actions: seq<Action>, staging: Update, pid: nat)
    returns (rollback: Update)
    requires Initial(w) && staging in Run(toml, w, actions).commits && staging.request.Stage? && !staging.disturbed
    requires staging.pid in Run(toml, w, actions).processes && pid in Run(toml, w, actions).processes
    requires RollsBack(Run(toml, w, actions).processes[staging.pid], Run(toml, w, actions).processes[pid].request)
    requires Run(toml, w, actions).processes[pid].phase.Done?
    requires Stored(Run(toml, w, actions).processes[pid].phase.result.status)
    ensures rollback in Run(toml, w, actions).commits && rollback.pid == pid
    ensures rollback.request == Run(toml, w, actions).processes[pid].request
    ensures rollback.target == Resolve.Normal(staging.target)
    ensures rollback.now == staging.was
    ensures rollback.disturbed || rollback.was == staging.now
  {
    hide Run, Justified, Planned, ParseRevision, Resolve.Normal;
    var after := Run(toml, w, actions);
    var p := after.processes[pid];
    StagingReturnsWhatItReplaced(toml, w, actions, staging);
    RunKeeps(toml, w, actions);
    assert CommitOk(toml, after, staging);
    StagedDiffers(toml, staging);
    StagedAt(toml, staging);
    RunAnswers(toml, w, actions);
    assert ProcessAnswers(toml, after, pid, p);
    if Answered(toml, p.request, p.phase.result) {
      RollbackIsNoAnswer(toml, p.request, staging.now, staging.seen, p.phase.result);
    }
    rollback :| rollback in after.commits && rollback.pid == pid && rollback.request == p.request;
    RollbackRestoresWhatWasStagedOver(toml, w, actions, staging, rollback);
  }

  /** What staging has seen was read at its target. */
  lemma StagedAt(toml: Toml, c: Update)
    requires Justified(toml, c)
    ensures c.seen.path == Some(c.target)
  {
    hide Planned;
  }
}
