/** Staging and the rollback with what it returned, over whole runs. */
module ProtocolStaging {
  import opened Bytes
  import opened Documents
  import opened Patch
  import opened Protocol
  import opened ProtocolSafety
  import opened ProtocolSerial
  import opened ProtocolRollback
  import Resolve

  /** The rollback a caller asks for with what a finished staging call returned. */
  ghost predicate RollsBack(p: Process, request: Request) {
    && p.phase.Done? && p.phase.result.snapshot.Some? && p.phase.previous.Some? && request.Restore?
    && request.staged == p.phase.result.snapshot.value.revision && request.previous == p.phase.previous.value
  }

  /** In every run, a finished staging call that has changed a document has returned
      the very document it replaced, unless another program disturbed it, and the one
      it left. */
  lemma StagingReturnsWhatItReplaced(toml: Toml, w: World, actions: seq<Action>, staging: Update)
    requires Initial(w) && staging in Run(toml, w, actions).commits && staging.request.Stage?
    requires staging.pid in Run(toml, w, actions).processes
    requires Run(toml, w, actions).processes[staging.pid].phase.Done?
    ensures var phase := Run(toml, w, actions).processes[staging.pid].phase;
      && (phase.result.status == Success || phase.result.status == DurabilityFailure)
      && phase.previous == Some(staging.seen)
      && phase.result.snapshot.Some? && phase.result.snapshot.value.revision == staging.now
    ensures staging.disturbed || staging.seen.revision == staging.was
  {
    hide Run, Justified;
    RunKeeps(toml, w, actions);
    assert CommitOk(toml, Run(toml, w, actions), staging);
    StagedIsPresent(toml, staging);
  }

  lemma StagedIsPresent(toml: Toml, c: Update)
    requires Justified(toml, c) && !c.request.Restore?
    ensures c.now.present
  {
    hide Patched, ParseRevision;
    RemovalRestores(toml, c.request, c.seen);
    ChangeIsPresent(toml, c.request, c.seen);
  }

  lemma RemovalRestores(toml: Toml, request: Request, current: Snapshot)
    requires Planned(toml, request, current).Change? && !request.Restore?
    ensures !Planned(toml, request, current).removal
  {
    hide Patched;
  }

  /** In every run of any number of calls and other programs: when a rollback with what
      a staging call returned writes or removes the document, it leaves exactly what
      the staging call had replaced, byte for byte or missing; and it has replaced
      exactly what the staging call had left, unless another program wrote after the
      rollback's final re-read. */
  lemma RollbackRestoresWhatWasStagedOver(toml: Toml, w: World, actions: seq<Action>, staging: Update, rollback: Update)
    requires Initial(w) && staging.request.Stage? && !staging.disturbed
    requires staging in Run(toml, w, actions).commits && rollback in Run(toml, w, actions).commits
    requires staging.pid in Run(toml, w, actions).processes
    requires RollsBack(Run(toml, w, actions).processes[staging.pid], rollback.request)
    ensures rollback.now == staging.was
    ensures rollback.disturbed || rollback.was == staging.now
  {
    hide Run, Justified, ParseRevision;
    StagingReturnsWhatItReplaced(toml, w, actions, staging);
    RollbackLeavesPrevious(toml, w, actions, rollback);
    CommitsReplaceWhatTheySaw(toml, w, actions, staging);
    SeenIsRead(toml, staging);
  }

  lemma SeenIsRead(toml: Toml, c: Update)
    requires Justified(toml, c)
    ensures !c.seen.revision.present ==> c.seen.revision == MISSING
  {
    hide Planned;
  }

  // ---------------------------------------------------------------------------
  // One after the other, alone

  /** A new call for `path` when the last one is done. */
  function Called(w: World, path: Path, request: Request): World {
    w.(processes := w.processes[w.nextPid := Process(w.nextPid, path, request, Start, 0, false)], nextPid := w.nextPid + 1)
  }

  lemma CalledIsReached(w: World, path: Path, target: Path, request: Request)
    requires path in w.routes && w.routes[path] == target && target !in w.locks
    ensures Reached(Called(w, path, request), Called(w, path, request), w.nextPid, target, Start)
    ensures !Called(w, path, request).processes[w.nextPid].faulted
  {}

  /** Staging these edits is serially a success at the target the path leads to. */
  ghost predicate Stageable(toml: Toml, w: World, path: Path, target: Path, edits: seq<Edit>, schema: Schema) {
    && path in w.routes && w.routes[path] == target && target !in w.locks
    && Intended(toml, path, target, Stage(edits, schema), RevisionAt(w.docs, target)).0.status == Success
  }

  /** `after` is the world once the call, alone, has taken its steps; it has returned. */
  ghost predicate AloneReturned(toml: Toml, w: World, path: Path, request: Request, after: World) {
    && after == Run(toml, Called(w, path, request), Alone(w.nextPid, 12)) && w.nextPid in after.processes
    && after.processes[w.nextPid].phase.Done?
  }

  function StatusOf(w: World, pid: nat): Option<Status> {
    if pid in w.processes && w.processes[pid].phase.Done? then Some(w.processes[pid].phase.result.status) else None
  }

  /** A staging call alone and then a rollback alone with what it returned, for a path
      whose target is what the links resolve to, both without faults. The rollback's
      target check passes; it succeeds, and the document is what it was before, byte for
      byte or missing, exactly when its schema accepts what it validates. Otherwise it
      is refused as invalid and the staged document stays. */
  lemma StagingAndRollbackAlone(toml: Toml, fs: Resolve.FileSystem, parts: seq<Resolve.Name>, w: World, path: Path,
                                edits: seq<Edit>, schema: Schema, rollbackSchema: Schema)
    returns (stored: Snapshot, previous: Snapshot, staged: World, rolledBack: World)
    requires Resolve.WellFormed(fs) && Resolve.Resolved(fs, parts).Ok?
    requires Stageable(toml, w, path, Resolve.Resolved(fs, parts).path, edits, schema)
    ensures AloneReturned(toml, w, path, Stage(edits, schema), staged) && StatusOf(staged, w.nextPid) == Some(Success)
    ensures staged.processes[w.nextPid].phase.result.snapshot == Some(stored)
    ensures staged.processes[w.nextPid].phase.previous == Some(previous)
    ensures AloneReturned(toml, staged, path, Restore(stored.revision, previous, rollbackSchema), rolledBack)
    ensures var target := Resolve.Resolved(fs, parts).path;
      if Valid(Restored(previous), rollbackSchema)
      then StatusOf(rolledBack, staged.nextPid) == Some(Success)
           && RevisionAt(rolledBack.docs, target) == RevisionAt(w.docs, target)
      else StatusOf(rolledBack, staged.nextPid) == Some(Invalid)
           && RevisionAt(rolledBack.docs, target) == RevisionAt(staged.docs, target)
  {
    hide Act, Run, Intended, ParseRevision, RollbackTargetMatches, DiagnosticsOf, Restored;
    var target, pid := Resolve.Resolved(fs, parts).path, w.nextPid;
    var stage := Stage(edits, schema);
    var before := RevisionAt(w.docs, target);
    RollbackUndoesStaging(toml, path, target, edits, schema, before, rollbackSchema);
    StagingParts(toml, path, target, edits, schema, before);
    CalledIsReached(w, path, target, stage);
    StageNeedsNoTarget(target, stage);
    staged := Run(toml, Called(w, path, stage), Alone(pid, 12));
    var returned, docs := AloneIsSerial(toml, Called(w, path, stage), pid, target);
    previous := returned.value;
    stored := staged.processes[pid].phase.result.snapshot.value;
    var rollback := Restore(stored.revision, previous, rollbackSchema);
    CalledIsReached(staged, path, target, rollback);
    RollbackTargetAccepted(fs, parts, rollback);
    rolledBack := Run(toml, Called(staged, path, rollback), Alone(pid + 1, 12));
    var returned', docs' := AloneIsSerial(toml, Called(staged, path, rollback), pid + 1, target);
  }

  lemma StageNeedsNoTarget(target: Path, request: Request)
    requires !request.Restore?
    ensures RollbackTargetMatches(target, request)
  {}
}
