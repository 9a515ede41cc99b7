/** Staging and conditional rollback, and a request that runs alone. */
module ProtocolRollback {
  import opened Bytes
  import opened Documents
  import opened Patch
  import opened Protocol
  import opened ProtocolSafety
  import opened ProtocolSerial
  import PatchProperties
  import Resolve

  // ---------------------------------------------------------------------------
  // Rollback undoes staging

  lemma SuccessMeansValidBefore(toml: Toml, current: Snapshot, edits: seq<Edit>, schema: Schema)
    requires PatchOf(toml, current, edits, schema).status == Success
    ensures Valid(current, schema)
  {
    hide Normalize, PlanAll, Patch.Apply;
  }

  lemma PatchKeepsPath(toml: Toml, current: Snapshot, edits: seq<Edit>, schema: Schema)
    requires PatchOf(toml, current, edits, schema).status == Success
    ensures PatchOf(toml, current, edits, schema).snapshot.Some?
    ensures var snapshot := PatchOf(toml, current, edits, schema).snapshot.value;
      && snapshot.path == current.path && snapshot.revision.present
      && ParseDocument(toml, snapshot.revision.bytes, snapshot.path) == Parsed(snapshot)
  {
    hide PatchOf, Normalize, PlanAll, ParseDocument;
    PatchIsPresent(toml, current, edits, schema);
    PatchProperties.SuccessParts(toml, current, edits, schema);
    var plan := PlanAll(toml, current, Normalize(toml, edits).value).value;
    PatchProperties.AppliedParts(toml, current, AllReplacements(toml, current, plan), Normalize(toml, edits).value);
  }

  /** What the rollback validates: the earlier document, or one without a path when
      there was none. */
  function Restored(previous: Snapshot): Snapshot {
    if previous.revision.present then previous else EMPTY
  }

  /** Restoring a snapshot that was read at the target, from another revision. */
  lemma RestorePlan(toml: Toml, target: Path, previous: Snapshot, schema: Schema, staged: Snapshot)
    requires ParseRevision(toml, previous.revision, target) == Parsed(previous)
    requires staged.revision == previous.revision
      || (staged.revision.present && (previous.revision.present ==> staged.revision.bytes != previous.revision.bytes))
    requires !previous.revision.present ==> previous.revision == MISSING
    ensures var plan := Planned(toml, Restore(staged.revision, previous, schema), staged);
      if !Valid(Restored(previous), schema) then plan.Answer? && plan.result.status == Invalid
      else if staged.revision == previous.revision then plan.Answer? && plan.result.status == Success
      else plan.Change? && Changed(plan) == previous.revision
  {
    hide DiagnosticsOf;
  }

  /** A staging call and a rollback with what it returned, with nobody in between: the
      rollback succeeds exactly when its schema accepts the earlier document, or, when
      there was none, one without a path. Then it leaves exactly the document there was
      before, byte for byte or missing; otherwise it is refused as invalid and the
      staged document stays. With the schema of the staging call, only a rollback to a
      missing document can be refused. */
  lemma RollbackUndoesStaging(toml: Toml, path: Path, target: Path, edits: seq<Edit>, schema: Schema, before: Revision,
                              rollbackSchema: Schema)
    requires !before.present ==> before == MISSING
    requires Intended(toml, path, target, Stage(edits, schema), before).0.status == Success
    ensures ParseRevision(toml, before, target).Parsed?
    ensures Intended(toml, path, target, Stage(edits, schema), before).0.snapshot.Some?
    ensures var previous := ParseRevision(toml, before, target).snapshot;
      var (result, after) := Intended(toml, path, target, Stage(edits, schema), before);
      var rollback := Restore(result.snapshot.value.revision, previous, rollbackSchema);
      var (undone, left) := Intended(toml, path, target, rollback, after);
      && previous.path == Some(target)
      && (undone.status == Success <==> Valid(Restored(previous), rollbackSchema))
      && (if undone.status == Success then left == before else undone.status == Invalid && left == after)
    ensures Valid(Restored(ParseRevision(toml, before, target).snapshot), schema) <==> before.present || Valid(EMPTY, schema)
  {
    hide PatchOf, ParseDocument, Planned, PrepareRestore, DiagnosticsOf;
    StagingParts(toml, path, target, edits, schema, before);
    var previous := ParseRevision(toml, before, target).snapshot;
    ReadIsParse(toml, before, target);
    var (result, after) := Intended(toml, path, target, Stage(edits, schema), before);
    ReadIsParse(toml, after, target);
    var staged := ParseRevision(toml, after, target).snapshot;
    RestorePlan(toml, target, previous, rollbackSchema, staged);
    if after != before && Valid(Restored(previous), rollbackSchema) {
      ChangeSucceeds(toml, Restore(after, previous, rollbackSchema), staged, path);
    }
  }

  lemma ChangeSucceeds(toml: Toml, request: Request, current: Snapshot, path: Path)
    requires Planned(toml, request, current).Change?
    ensures Placed(Planned(toml, request, current).patched, path).status == Success
  {}

  /** What a successful staging step leaves. */
  lemma StagingParts(toml: Toml, path: Path, target: Path, edits: seq<Edit>, schema: Schema, before: Revision)
    requires !before.present ==> before == MISSING
    requires Intended(toml, path, target, Stage(edits, schema), before).0.status == Success
    ensures ParseRevision(toml, before, target).Parsed?
    ensures var current := ParseRevision(toml, before, target).snapshot;
      var (result, after) := Intended(toml, path, target, Stage(edits, schema), before);
      && current.path == Some(target) && Valid(current, schema)
      && result.snapshot.Some? && result.snapshot.value.revision == after
      && ParseRevision(toml, after, target).Parsed?
      && (after == before || (after.present && after.bytes != before.bytes))
  {
    hide PatchOf, DiagnosticsOf;
    var current := ParseRevision(toml, before, target).snapshot;
    ReadIsParse(toml, before, target);
    assert Patched(toml, Stage(edits, schema), current) == PatchOf(toml, current, edits, schema);
    StagedIsPatched(toml, path, target, edits, schema, before);
    SuccessMeansValidBefore(toml, current, edits, schema);
    PatchKeepsPath(toml, current, edits, schema);
  }

  lemma StagedIsPatched(toml: Toml, path: Path, target: Path, edits: seq<Edit>, schema: Schema, before: Revision)
    requires ParseRevision(toml, before, target).Parsed?
    requires Intended(toml, path, target, Stage(edits, schema), before).0.status == Success
    ensures PatchOf(toml, ParseRevision(toml, before, target).snapshot, edits, schema).status == Success
  {
    hide PatchOf, ParseRevision;
  }

  /** In every run, a rollback that writes or removes the document found the staged
      revision, unless another program wrote in between its final re-read and the
      replacement, and leaves the earlier document, byte for byte or missing. */
  lemma RollbackLeavesPrevious(toml: Toml, w: World, actions: seq<Action>, c: Update)
    requires Initial(w) && c in Run(toml, w, actions).commits && c.request.Restore?
    ensures c.disturbed || c.was == c.request.staged
    ensures c.now == if c.request.previous.revision.present then c.request.previous.revision else MISSING
  {
    hide Run, DiagnosticsOf;
    CommitsReplaceWhatTheySaw(toml, w, actions, c);
  }

  /** The rollback's target check accepts what a staging call returned: its target
      is a resolved path, which is its own normal form. */
  lemma RollbackTargetAccepted(fs: Resolve.FileSystem, parts: seq<Resolve.Name>, request: Request)
    requires Resolve.WellFormed(fs) && Resolve.Resolved(fs, parts).Ok?
    requires request.Restore? && request.previous.path == Some(Resolve.Resolved(fs, parts).path)
    ensures RollbackTargetMatches(Resolve.Resolved(fs, parts).path, request)
  {
    Resolve.TargetIsNormal(fs, parts);
  }

  // ---------------------------------------------------------------------------
  // A request alone

  /** The process takes `n` steps and nothing else happens. */
  function Alone(pid: nat, n: nat): seq<Action> {
    if n == 0 then [] else Alone(pid, n - 1) + [Step(pid, true)]
  }

  lemma OneMoreStep(toml: Toml, w: World, pid: nat, n: nat)
    ensures Run(toml, w, Alone(pid, n + 1)) == Act(toml, Run(toml, w, Alone(pid, n)), Step(pid, true))
  {
    assert Alone(pid, n + 1)[..|Alone(pid, n + 1)| - 1] == Alone(pid, n);
  }

  /** The same paths and the same processes. */
  ghost predicate SameSurroundings(start: World, w: World) {
    w.routes == start.routes && w.processes.Keys == start.processes.Keys && w.nextPid == start.nextPid
  }

  /** The process has reached `phase`, and nothing else has changed. */
  ghost predicate Reached(start: World, w: World, pid: nat, target: Path, phase: Phase) {
    && pid in start.processes && pid in w.processes
    && w.processes[pid].path == start.processes[pid].path && w.processes[pid].request == start.processes[pid].request
    && w.processes[pid].phase == phase && SameSurroundings(start, w)
    && LeadsTo(start, start.processes[pid].path, target)
    && (HoldsLock(phase) <==> target in w.locks)
    && (!phase.Replaced? ==> w.docs == start.docs)
  }

  lemma AloneMoves(toml: Toml, start: World, w: World, pid: nat, target: Path, phase: Phase, next: Phase)
    requires Reached(start, w, pid, target, phase) && !phase.Replaced?
    requires OnSuccess(toml, w, w.processes[pid]) == Move(next)
    requires !next.Replaced? && (HoldsLock(next) <==> HoldsLock(phase))
    ensures Reached(start, Act(toml, w, Step(pid, true)), pid, target, next)
  {}

  lemma AloneAcquires(toml: Toml, start: World, w: World, pid: nat, target: Path)
    requires Reached(start, w, pid, target, Waiting(target))
    ensures Reached(start, Act(toml, w, Step(pid, true)), pid, target, Holding(target))
  {}

  lemma AloneStarts(toml: Toml, start: World, w: World, pid: nat, target: Path)
    requires Reached(start, w, pid, target, Start) && RollbackTargetMatches(target, w.processes[pid].request)
    ensures Reached(start, Act(toml, w, Step(pid, true)), pid, target, Matched(target))
  {
    hide Act, RollbackTargetMatches;
    AloneMoves(toml, start, w, pid, target, Start, Matched(target));
  }

  lemma AloneReads(toml: Toml, start: World, w: World, pid: nat, target: Path)
    requires Reached(start, w, pid, target, Matched(target)) && ReadDocument(toml, start.docs, target).Parsed?
    ensures Reached(start, Act(toml, w, Step(pid, true)), pid, target, Checked(target))
  {
    hide Act, ReadDocument;
    AloneMoves(toml, start, w, pid, target, Matched(target), Checked(target));
  }

  lemma AloneWaits(toml: Toml, start: World, w: World, pid: nat, target: Path)
    requires Reached(start, w, pid, target, Checked(target))
    ensures Reached(start, Act(toml, w, Step(pid, true)), pid, target, Waiting(target))
  {
    hide Act;
    AloneMoves(toml, start, w, pid, target, Checked(target), Waiting(target));
  }

  /** Steps up to the lock. */
  lemma AloneToWaiting(toml: Toml, start: World, pid: nat, target: Path)
    requires Reached(start, start, pid, target, Start)
    requires RollbackTargetMatches(target, start.processes[pid].request)
    requires ReadDocument(toml, start.docs, target).Parsed?
    ensures Reached(start, Run(toml, start, Alone(pid, 3)), pid, target, Waiting(target))
  {
    hide Act, Run, ReadDocument, RollbackTargetMatches;
    AloneNothing(toml, start, pid);
    OneMoreStep(toml, start, pid, 0);
    AloneStarts(toml, start, start, pid, target);
    OneMoreStep(toml, start, pid, 1);
    AloneReads(toml, start, Run(toml, start, Alone(pid, 1)), pid, target);
    OneMoreStep(toml, start, pid, 2);
    AloneWaits(toml, start, Run(toml, start, Alone(pid, 2)), pid, target);
  }

  /** Steps up to the decision. */
  lemma AloneToConfirmed(toml: Toml, start: World, pid: nat, target: Path)
    requires Reached(start, start, pid, target, Start)
    requires RollbackTargetMatches(target, start.processes[pid].request)
    requires ReadDocument(toml, start.docs, target).Parsed?
    ensures Reached(start, Run(toml, start, Alone(pid, 5)), pid, target, Confirmed(target))
  {
    hide Act, Run, ParseDocument, Resolve.Normal;
    var w3, w4 := Run(toml, start, Alone(pid, 3)), Run(toml, start, Alone(pid, 4));
    AloneToWaiting(toml, start, pid, target);
    OneMoreStep(toml, start, pid, 3);
    AloneAcquires(toml, start, w3, pid, target);
    OneMoreStep(toml, start, pid, 4);
    AloneMoves(toml, start, w4, pid, target, Holding(target), Confirmed(target));
  }

  lemma AloneNothing(toml: Toml, w: World, pid: nat)
    ensures Run(toml, w, Alone(pid, 0)) == w
  {}

  /** The process has returned `result`, left `docs` and released the target. */
  ghost predicate Returned(start: World, w: World, pid: nat, target: Path, result: SaveResult,
                           previous: Option<Snapshot>, docs: map<Path, Doc>) {
    && pid in w.processes && w.processes[pid].phase == Done(result, previous) && !w.processes[pid].faulted
    && w.docs == docs && target !in w.locks && SameSurroundings(start, w)
  }

  lemma ReturnedStays(toml: Toml, start: World, w: World, pid: nat, target: Path, result: SaveResult,
                      previous: Option<Snapshot>, docs: map<Path, Doc>)
    requires Returned(start, w, pid, target, result, previous, docs)
    ensures Returned(start, Act(toml, w, Step(pid, true)), pid, target, result, previous, docs)
  {}

  lemma {:induction false} ReturnedStaysFor(toml: Toml, start: World, pid: nat, target: Path, n: nat, m: nat,
                                            result: SaveResult, previous: Option<Snapshot>, docs: map<Path, Doc>)
    requires n <= m && Returned(start, Run(toml, start, Alone(pid, n)), pid, target, result, previous, docs)
    ensures Returned(start, Run(toml, start, Alone(pid, m)), pid, target, result, previous, docs)
    decreases m - n
  {
    hide Act, Run, Returned;
    if n < m {
      OneMoreStep(toml, start, pid, n);
      ReturnedStays(toml, start, Run(toml, start, Alone(pid, n)), pid, target, result, previous, docs);
      ReturnedStaysFor(toml, start, pid, target, n + 1, m, result, previous, docs);
    }
  }

  lemma AloneReturns(toml: Toml, start: World, w: World, pid: nat, target: Path, phase: Phase, result: SaveResult,
                     previous: Option<Snapshot>)
    requires Reached(start, w, pid, target, phase) && HoldsLock(phase) && TargetOf(phase) == target
    requires OnSuccess(toml, w, w.processes[pid]) == Return(result, previous)
    ensures Returned(start, Act(toml, w, Step(pid, true)), pid, target, result, previous, w.docs)
  {
    hide OnSuccess;
  }

  /** The work once its temporary file is prepared, and once it is re-read. */
  function Prepared(docs: map<Path, Doc>, work: Work): Work
    requires work.plan.Change?
  {
    if !work.plan.removal && work.current.revision.present && work.target in docs
    then work.(metadata := Some((docs[work.target].inode, docs[work.target].mode))) else work
  }

  lemma AlonePrepares(toml: Toml, start: World, w: World, pid: nat, target: Path, work: Work)
    requires Reached(start, w, pid, target, Decided(work)) && work.target == target && work.metadata.None? && work.plan.Change?
    requires RevisionAt(start.docs, target) == work.current.revision
    ensures Reached(start, Act(toml, w, Step(pid, true)), pid, target, Ready(Prepared(start.docs, work)))
  {
    hide Act;
    AloneMoves(toml, start, w, pid, target, Decided(work), Ready(Prepared(start.docs, work)));
  }

  lemma AloneRereads(toml: Toml, start: World, w: World, pid: nat, target: Path, work: Work)
    requires Reached(start, w, pid, target, Ready(work)) && work.target == target
    requires RevisionAt(start.docs, target) == work.current.revision
    ensures Reached(start, Act(toml, w, Step(pid, true)), pid, target, Reread(work.(since := w.clock)))
  {
    hide Act;
    AloneMoves(toml, start, w, pid, target, Ready(work), Reread(work.(since := w.clock)));
  }

  lemma AloneReroutes(toml: Toml, start: World, w: World, pid: nat, target: Path, work: Work)
    requires Reached(start, w, pid, target, Reread(work)) && work.target == target
    ensures Reached(start, Act(toml, w, Step(pid, true)), pid, target, Rerouted(work))
  {
    hide Act;
    AloneMoves(toml, start, w, pid, target, Reread(work), Rerouted(work));
  }

  lemma AloneVerifies(toml: Toml, start: World, w: World, pid: nat, target: Path, work: Work)
    requires Reached(start, w, pid, target, Rerouted(work)) && work.target == target
    requires work.metadata.Some? ==>
      target in start.docs && work.metadata.value == (start.docs[target].inode, start.docs[target].mode)
    ensures Reached(start, Act(toml, w, Step(pid, true)), pid, target, Verified(work))
  {
    hide Act;
    AloneMoves(toml, start, w, pid, target, Rerouted(work), Verified(work));
  }

  /** The steps of a change, from the decision to the last check. */
  lemma AloneToVerified(toml: Toml, start: World, pid: nat, target: Path, work: Work) returns (verified: Work)
    requires Reached(start, Run(toml, start, Alone(pid, 6)), pid, target, Decided(work))
    requires work.target == target && work.metadata.None? && work.plan.Change?
    requires RevisionAt(start.docs, target) == work.current.revision
    ensures Reached(start, Run(toml, start, Alone(pid, 10)), pid, target, Verified(verified))
    ensures verified.target == target && verified.plan == work.plan && verified.current == work.current
  {
    hide Act, Run, Reached, RevisionAt;
    var ready := Prepared(start.docs, work);
    verified := ready.(since := Run(toml, start, Alone(pid, 7)).clock);
    OneMoreStep(toml, start, pid, 6);
    AlonePrepares(toml, start, Run(toml, start, Alone(pid, 6)), pid, target, work);
    OneMoreStep(toml, start, pid, 7);
    AloneRereads(toml, start, Run(toml, start, Alone(pid, 7)), pid, target, ready);
    OneMoreStep(toml, start, pid, 8);
    AloneReroutes(toml, start, Run(toml, start, Alone(pid, 8)), pid, target, verified);
    OneMoreStep(toml, start, pid, 9);
    AloneVerifies(toml, start, Run(toml, start, Alone(pid, 9)), pid, target, verified);
  }

  /** The steps of a change, from the decision to the return. */
  lemma AloneChanges(toml: Toml, start: World, pid: nat, target: Path, work: Work)
    returns (previous: Option<Snapshot>, docs: map<Path, Doc>)
    requires Reached(start, Run(toml, start, Alone(pid, 6)), pid, target, Decided(work)) && !start.processes[pid].faulted
    requires work.target == target && work.metadata.None? && work.plan.Change? && work.plan.patched.snapshot.Some?
    requires RevisionAt(start.docs, target) == work.current.revision
    requires work.plan.removal ==> work.current.revision.present
    requires !work.plan.removal ==> Changed(work.plan).present
    ensures Returned(start, Run(toml, start, Alone(pid, 12)), pid, target,
                     Durable(work, start.processes[pid].path, Success), previous, docs)
    ensures previous == Previous(start.processes[pid].request, work.current)
    ensures RevisionAt(docs, target) == if work.plan.removal then MISSING else Changed(work.plan)
    ensures forall other :: other != target ==> RevisionAt(docs, other) == RevisionAt(start.docs, other)
  {
    hide Act, Run, Changed, AfterWrite, Returned;
    var verified := AloneToVerified(toml, start, pid, target, work);
    var w10, w11 := Run(toml, start, Alone(pid, 10)), Run(toml, start, Alone(pid, 11));
    OneMoreStep(toml, start, pid, 10);
    AloneWrites(toml, start, w10, pid, target, verified);
    docs := AfterWrite(w10, verified);
    OneMoreStep(toml, start, pid, 11);
    previous := Previous(start.processes[pid].request, work.current);
    AloneReturns(toml, start, w11, pid, target, Replaced(verified), Durable(verified, start.processes[pid].path, Success),
                 previous);
    AloneWritten(w10, verified);
  }

  lemma AloneWrites(toml: Toml, start: World, w: World, pid: nat, target: Path, work: Work)
    requires Reached(start, w, pid, target, Verified(work)) && work.target == target
    requires work.plan.Change? && (work.plan.removal ==> target in start.docs)
    ensures var after := Act(toml, w, Step(pid, true));
      Reached(start, after, pid, target, Replaced(work)) && after.docs == AfterWrite(w, work)
  {
    hide AfterWrite;
  }

  lemma AloneWritten(w: World, work: Work)
    requires work.plan.Change? && work.plan.patched.snapshot.Some?
    requires !work.plan.removal ==> Changed(work.plan).present
    ensures RevisionAt(AfterWrite(w, work), work.target) == if work.plan.removal then MISSING else Changed(work.plan)
    ensures forall other :: other != work.target ==> RevisionAt(AfterWrite(w, work), other) == RevisionAt(w.docs, other)
  {}

  /** Any request alone, with no fault and a readable document, returns within
      twelve steps with exactly its serial result, and leaves exactly its document. */
  lemma AloneIsSerial(toml: Toml, start: World, pid: nat, target: Path)
    returns (previous: Option<Snapshot>, docs: map<Path, Doc>)
    requires Reached(start, start, pid, target, Start) && !start.processes[pid].faulted
    requires RollbackTargetMatches(target, start.processes[pid].request)
    requires ReadDocument(toml, start.docs, target).Parsed?
    ensures var p := start.processes[pid];
      var (result, after) := Intended(toml, p.path, target, p.request, RevisionAt(start.docs, target));
      && Returned(start, Run(toml, start, Alone(pid, 12)), pid, target, result, previous, docs)
      && RevisionAt(docs, target) == after
      && (p.request.Stage? && result.status == Success ==> previous == Some(ReadDocument(toml, start.docs, target).snapshot))
  {
    hide Act, Run, Planned, ParseDocument, Returned, Changed;
    var p := start.processes[pid];
    AloneToConfirmed(toml, start, pid, target);
    var w5 := Run(toml, start, Alone(pid, 5));
    var before := RevisionAt(start.docs, target);
    var current := ReadDocument(toml, start.docs, target).snapshot;
    ReadIsParse(toml, before, target);
    OneMoreStep(toml, start, pid, 5);
    match Planned(toml, p.request, current) {
      case Answer(result) =>
        previous := if result.status == Success then Previous(p.request, current) else None;
        docs := start.docs;
        AloneReturns(toml, start, w5, pid, target, Confirmed(target), result, previous);
        ReturnedStaysFor(toml, start, pid, target, 6, 12, result, previous, docs);
      case Change(patched, removal) =>
        var work := Work(target, current, Change(patched, removal), None, 0);
        AloneMoves(toml, start, w5, pid, target, Confirmed(target), Decided(work));
        ChangeParts(toml, p.request, current, target);
        previous, docs := AloneChanges(toml, start, pid, target, work);
        IntendedChange(toml, p.path, p.request, work);
        if removal {
          RemovalIsMissing(work.plan);
        }
    }
  }

  lemma RemovalIsMissing(plan: Decision)
    requires plan.Change? && plan.patched.snapshot.Some? && plan.removal
    ensures Changed(plan) == MISSING
  {}

  lemma ChangeParts(toml: Toml, request: Request, current: Snapshot, target: Path)
    requires Planned(toml, request, current).Change?
    ensures var plan := Planned(toml, request, current);
      && plan.patched.status == Success && plan.patched.snapshot.Some?
      && (plan.removal ==> current.revision.present)
      && (!plan.removal ==> Changed(plan).present)
  {
    hide Patched;
    if !Planned(toml, request, current).removal {
      ChangeIsPresent(toml, request, current);
    }
  }
}
