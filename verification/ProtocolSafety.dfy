/** What every step of every process keeps, whatever other programs do. */
module ProtocolSafety {
  import opened Bytes
  import opened Documents
  import opened Patch
  import opened Protocol
  import PatchProperties

  // ---------------------------------------------------------------------------
  // The invariant

  predicate AfterReread(phase: Phase) {
    phase.Reread? || phase.Rerouted? || phase.Verified?
  }

  /** The change is what the request does to a document read at the target. */
  ghost predicate WorkOk(toml: Toml, request: Request, work: Work) {
    && work.plan.Change? && work.plan.patched.snapshot.Some? && work.plan.patched.status == Success
    && Planned(toml, request, work.current) == work.plan
    && ParseRevision(toml, work.current.revision, work.target) == Parsed(work.current)
  }

  /** Since the final re-read the target is as it was read, unless another program
      has written it. */
  predicate Unchanged(w: World, work: Work) {
    && work.since <= w.clock
    && (TouchedSince(w, work.target, work.since) || RevisionAt(w.docs, work.target) == work.current.revision)
  }

  ghost predicate PhaseOk(toml: Toml, w: World, request: Request, phase: Phase) {
    && (HasWork(phase) ==> WorkOk(toml, request, phase.work))
    && (AfterReread(phase) ==> Unchanged(w, phase.work))
  }

  ghost predicate ProcessOk(toml: Toml, w: World, pid: nat)
    requires pid in w.processes
  {
    var p := w.processes[pid];
    && pid < w.nextPid && PhaseOk(toml, w, p.request, p.phase)
    && (HoldsLock(p.phase) ==> TargetOf(p.phase) in w.locks && w.locks[TargetOf(p.phase)] == pid)
  }

  predicate LockOk(w: World, target: Path)
    requires target in w.locks
  {
    var pid := w.locks[target];
    pid in w.processes && HoldsLock(w.processes[pid].phase) && TargetOf(w.processes[pid].phase) == target
  }

  predicate CommitsOnSuccess(phase: Phase) {
    phase.Replaced? || (phase.Done? && (phase.result.status == Success || phase.result.status == DurabilityFailure))
  }

  /** The process that made the commit has yet to sync, or has returned what it
      stored; a staging call has returned the document it replaced. */
  ghost predicate CommittedBy(p: Process, c: Update) {
    && CommitsOnSuccess(p.phase) && p.request == c.request
    && (p.phase.Replaced? ==> p.phase.work.current == c.seen && Stores(p.phase.work, c))
    && (p.phase.Done? ==>
         && p.phase.previous == Previous(c.request, c.seen)
         && (c.now.present ==> p.phase.result.snapshot.Some? && p.phase.result.snapshot.value.revision == c.now))
  }

  predicate Stores(work: Work, c: Update) {
    work.plan.Change? && work.plan.patched.snapshot.Some? && c.now == Changed(work.plan)
  }

  /** The commit is the change its request makes to the document it saw. */
  ghost predicate Justified(toml: Toml, c: Update) {
    var plan := Planned(toml, c.request, c.seen);
    && plan.Change? && plan.patched.snapshot.Some? && plan.patched.status == Success
    && c.now == Changed(plan)
    && ParseRevision(toml, c.seen.revision, c.target) == Parsed(c.seen)
  }

  ghost predicate CommitOk(toml: Toml, w: World, c: Update) {
    && c.pid < w.nextPid && (c.disturbed || c.was == c.seen.revision) && Justified(toml, c)
    && (c.pid in w.processes ==> CommittedBy(w.processes[c.pid], c))
  }

  ghost predicate Inv(toml: Toml, w: World) {
    && (forall pid :: pid in w.processes ==> ProcessOk(toml, w, pid))
    && (forall target :: target in w.locks ==> LockOk(w, target))
    && (forall c :: c in w.commits ==> CommitOk(toml, w, c))
  }

  // ---------------------------------------------------------------------------
  // Effects

  ghost predicate EffectOk(toml: Toml, w: World, p: Process, effect: Effect) {
    match effect
    case Stay => true
    case Move(phase) =>
      && PhaseOk(toml, w, p.request, phase) && !phase.Done? && !phase.Replaced? && !p.phase.Done? && !p.phase.Replaced?
      && (HoldsLock(phase) <==> HoldsLock(p.phase)) && (HoldsLock(phase) ==> TargetOf(phase) == TargetOf(p.phase))
    case Acquire(target) => p.phase == Waiting(target) && target !in w.locks
    case Write(work) => p.phase == Verified(work)
    case Return(result, previous) =>
      && !p.phase.Done?
      && (p.phase.Replaced? ==>
           && (result.status == Success || result.status == DurabilityFailure)
           && previous == Previous(p.request, p.phase.work.current)
           && result == Durable(p.phase.work, p.path, result.status))
  }

  lemma ReadIsParse(toml: Toml, revision: Revision, target: Path)
    requires ParseRevision(toml, revision, target).Parsed?
    requires !revision.present ==> revision == MISSING
    ensures ParseRevision(toml, revision, target).snapshot.revision == revision
  {}

  lemma ConfirmedIsOk(toml: Toml, w: World, p: Process, target: Path)
    requires p.phase == Confirmed(target)
    ensures EffectOk(toml, w, p, OnConfirmed(toml, w, p, target))
  {
    hide Patched, ParseDocument;
    var read := ReadDocument(toml, w.docs, target);
    if read.Parsed? {
      ReadIsParse(toml, RevisionAt(w.docs, target), target);
    }
  }

  lemma EffectIsOk(toml: Toml, w: World, pid: nat, ok: bool)
    requires pid in w.processes && ProcessOk(toml, w, pid)
    ensures EffectOk(toml, w, w.processes[pid], EffectOf(toml, w, w.processes[pid], ok))
  {
    hide OnConfirmed, Planned, ParseRevision, ParseDocument;
    var p := w.processes[pid];
    if ok && p.phase.Confirmed? {
      ConfirmedIsOk(toml, w, p, p.phase.target);
    }
  }

  // ---------------------------------------------------------------------------
  // Preservation

  /** Nothing but the process itself has changed. */
  lemma OthersKept(toml: Toml, w: World, after: World, pid: nat, other: nat)
    requires other in w.processes && ProcessOk(toml, w, other) && other != pid
    requires other in after.processes && after.processes[other] == w.processes[other]
    requires after.nextPid >= w.nextPid && after.clock >= w.clock && after.touched == w.touched
    requires forall target :: target in w.locks && w.locks[target] == other ==>
      target in after.locks && after.locks[target] == other
      && RevisionAt(after.docs, target) == RevisionAt(w.docs, target)
    ensures ProcessOk(toml, after, other)
  {
    hide WorkOk, RevisionAt;
  }

  lemma CommitsKept(toml: Toml, w: World, after: World, pid: nat, c: Update)
    requires CommitOk(toml, w, c) && after.nextPid >= w.nextPid
    requires forall other :: other in after.processes && other < w.nextPid && other != pid ==>
      other in w.processes && after.processes[other] == w.processes[other]
    requires pid in after.processes && pid in w.processes && CommittedBy(w.processes[pid], c) ==>
      CommittedBy(after.processes[pid], c)
    requires pid < w.nextPid && pid in after.processes ==> pid in w.processes
    ensures CommitOk(toml, after, c)
  {
    hide Justified;
  }

  lemma MoveKeeps(toml: Toml, w: World, pid: nat, phase: Phase)
    requires Inv(toml, w) && pid in w.processes && EffectOk(toml, w, w.processes[pid], Move(phase))
    ensures Inv(toml, Perform(w, pid, Move(phase), true))
  {
    hide PhaseOk, Justified, RevisionAt;
    var after := Perform(w, pid, Move(phase), true);
    forall other | other in after.processes ensures ProcessOk(toml, after, other) {
      if other != pid {
        OthersKept(toml, w, after, pid, other);
      } else {
        PhaseInWorld(toml, w, after, w.processes[pid].request, phase);
      }
    }
    forall c | c in after.commits ensures CommitOk(toml, after, c) {
      CommitsKept(toml, w, after, pid, c);
    }
  }

  lemma PhaseInWorld(toml: Toml, w: World, after: World, request: Request, phase: Phase)
    requires PhaseOk(toml, w, request, phase)
    requires after.clock >= w.clock && after.touched == w.touched && after.docs == w.docs
    ensures PhaseOk(toml, after, request, phase)
  {}

  lemma AcquireKeeps(toml: Toml, w: World, pid: nat, target: Path)
    requires Inv(toml, w) && pid in w.processes && EffectOk(toml, w, w.processes[pid], Acquire(target))
    ensures Inv(toml, Perform(w, pid, Acquire(target), true))
  {
    hide WorkOk, Unchanged, Justified, RevisionAt;
    var after := Perform(w, pid, Acquire(target), true);
    forall other | other in after.processes ensures ProcessOk(toml, after, other) {
      if other != pid {
        OthersKept(toml, w, after, pid, other);
      }
    }
    forall t | t in after.locks ensures LockOk(after, t) {
      if t != target {
        assert LockOk(w, t);
      }
    }
    forall c | c in after.commits ensures CommitOk(toml, after, c) {
      CommitsKept(toml, w, after, pid, c);
    }
  }

  /** A call that returns after a change returns what it has stored. */
  lemma ReturnCommitted(p: Process, q: Process, c: Update, result: SaveResult, previous: Option<Snapshot>)
    requires CommittedBy(p, c) && !p.phase.Done? && q.phase == Done(result, previous) && q.request == p.request
    requires p.phase.Replaced? ==>
      && (result.status == Success || result.status == DurabilityFailure)
      && previous == Previous(p.request, p.phase.work.current)
      && result == Durable(p.phase.work, p.path, result.status)
    ensures CommittedBy(q, c)
  {}

  lemma ReturnKeepsProcesses(toml: Toml, w: World, pid: nat, result: SaveResult, previous: Option<Snapshot>, ok: bool)
    requires Inv(toml, w) && pid in w.processes
    ensures var after := Perform(w, pid, Return(result, previous), ok);
      forall other :: other in after.processes ==> ProcessOk(toml, after, other)
  {
    hide WorkOk, Unchanged, CommitOk, LockOk, RevisionAt, SectionOf, EffectOk;
    var after := Perform(w, pid, Return(result, previous), ok);
    forall other | other in after.processes ensures ProcessOk(toml, after, other) {
      if other != pid {
        OthersKept(toml, w, after, pid, other);
      }
    }
  }

  lemma ReturnKeepsLocks(toml: Toml, w: World, pid: nat, result: SaveResult, previous: Option<Snapshot>, ok: bool)
    requires Inv(toml, w) && pid in w.processes
    ensures var after := Perform(w, pid, Return(result, previous), ok);
      forall t :: t in after.locks ==> LockOk(after, t)
  {
    hide PhaseOk, CommitOk, RevisionAt, SectionOf, EffectOk;
    var after := Perform(w, pid, Return(result, previous), ok);
    assert ProcessOk(toml, w, pid);
    forall t | t in after.locks ensures LockOk(after, t) {
      assert LockOk(w, t);
    }
  }

  lemma ReturnKeeps(toml: Toml, w: World, pid: nat, result: SaveResult, previous: Option<Snapshot>, ok: bool)
    requires Inv(toml, w) && pid in w.processes && EffectOk(toml, w, w.processes[pid], Return(result, previous))
    ensures Inv(toml, Perform(w, pid, Return(result, previous), ok))
  {
    hide PhaseOk, LockOk, Justified, RevisionAt, SectionOf, CommittedBy, Durable, Previous;
    var after := Perform(w, pid, Return(result, previous), ok);
    ReturnKeepsProcesses(toml, w, pid, result, previous, ok);
    ReturnKeepsLocks(toml, w, pid, result, previous, ok);
    forall c | c in after.commits ensures CommitOk(toml, after, c) {
      if CommittedBy(w.processes[pid], c) {
        ReturnCommitted(w.processes[pid], after.processes[pid], c, result, previous);
      }
      CommitsKept(toml, w, after, pid, c);
    }
  }

  lemma WriteKeepsOthers(toml: Toml, w: World, pid: nat, work: Work)
    requires Inv(toml, w) && pid in w.processes && EffectOk(toml, w, w.processes[pid], Write(work))
    ensures var after := Perform(w, pid, Write(work), true);
      && (forall other :: other in after.processes && other != pid ==> ProcessOk(toml, after, other))
      && (forall t :: t in after.locks ==> LockOk(after, t))
  {
    hide WorkOk, CommitOk, RevisionAt, AfterWrite;
    var after := Perform(w, pid, Write(work), true);
    assert ProcessOk(toml, w, pid);
    forall other | other in after.processes && other != pid ensures ProcessOk(toml, after, other) {
      forall target | target in w.locks && w.locks[target] == other
        ensures RevisionAt(after.docs, target) == RevisionAt(w.docs, target)
      {
        OtherTargets(w, work, target);
      }
      OthersKept(toml, w, after, pid, other);
    }
    forall t | t in after.locks ensures LockOk(after, t) {
      assert LockOk(w, t);
    }
  }

  lemma WriteKeeps(toml: Toml, w: World, pid: nat, work: Work)
    requires Inv(toml, w) && pid in w.processes && EffectOk(toml, w, w.processes[pid], Write(work))
    ensures Inv(toml, Perform(w, pid, Write(work), true))
  {
    hide WorkOk, LockOk, Justified, RevisionAt, AfterWrite;
    var after := Perform(w, pid, Write(work), true);
    assert ProcessOk(toml, w, pid);
    WriteIsJustified(toml, w, w.processes[pid].request, work);
    WorkHasChange(toml, w.processes[pid].request, work);
    WriteKeepsOthers(toml, w, pid, work);
    forall c | c in after.commits ensures CommitOk(toml, after, c) {
      if c in w.commits {
        CommitsKept(toml, w, after, pid, c);
      }
    }
  }

  lemma WorkHasChange(toml: Toml, request: Request, work: Work)
    requires WorkOk(toml, request, work)
    ensures work.plan.Change? && work.plan.patched.snapshot.Some?
  {}

  lemma OtherTargets(w: World, work: Work, target: Path)
    requires target != work.target
    ensures RevisionAt(AfterWrite(w, work), target) == RevisionAt(w.docs, target)
  {}

  /** A patched or restored document is present, so a rename leaves exactly it. */
  lemma WriteIsJustified(toml: Toml, w: World, request: Request, work: Work)
    requires WorkOk(toml, request, work)
    ensures RevisionAt(AfterWrite(w, work), work.target) == Changed(work.plan)
    ensures forall pid, was, disturbed ::
      Justified(toml, Update(pid, work.target, request, work.current, was, Changed(work.plan), disturbed))
  {
    hide ParseRevision, PatchOf;
    if !work.plan.removal {
      ChangeIsPresent(toml, request, work.current);
    }
  }

  lemma ChangeIsPresent(toml: Toml, request: Request, current: Snapshot)
    requires Planned(toml, request, current).Change? && !Planned(toml, request, current).removal
    requires Planned(toml, request, current).patched.snapshot.Some?
    ensures Changed(Planned(toml, request, current)).present
  {
    hide PatchOf;
    match request {
      case Restore(_, previous, _) =>
      case Save(edits, schema) => PatchIsPresent(toml, current, edits, schema);
      case Stage(edits, schema) => PatchIsPresent(toml, current, edits, schema);
    }
  }

  /** A change is one: other bytes than those read, or the removal of a document. */
  lemma ChangeChanges(toml: Toml, request: Request, current: Snapshot)
    requires Planned(toml, request, current).Change? && Planned(toml, request, current).patched.snapshot.Some?
    ensures var after := Changed(Planned(toml, request, current));
      && after != current.revision
      && (if after.present then after.bytes != current.revision.bytes
          else request.Restore? && current.revision.present && !request.previous.revision.present)
  {
    hide Patched;
    if !Planned(toml, request, current).removal {
      ChangeIsPresent(toml, request, current);
    }
  }

  lemma PatchIsPresent(toml: Toml, current: Snapshot, edits: seq<Edit>, schema: Schema)
    requires PatchOf(toml, current, edits, schema).status == Success
    ensures PatchOf(toml, current, edits, schema).snapshot.Some?
    ensures PatchOf(toml, current, edits, schema).snapshot.value.revision.present
  {
    hide PatchOf, ParseDocument;
    PatchProperties.SuccessMeansSeenAndRealised(toml, current, edits, schema);
    ParsedIsPresent(toml, PatchOf(toml, current, edits, schema).snapshot.value);
  }

  lemma ParsedIsPresent(toml: Toml, snapshot: Snapshot)
    requires ParseDocument(toml, snapshot.revision.bytes, snapshot.path) == Parsed(snapshot)
    ensures snapshot.revision.present
  {}

  lemma PerformKeeps(toml: Toml, w: World, pid: nat, effect: Effect, ok: bool)
    requires Inv(toml, w) && pid in w.processes && EffectOk(toml, w, w.processes[pid], effect)
    ensures Inv(toml, Perform(w, pid, effect, ok))
  {
    hide Inv, EffectOk;
    match effect {
      case Stay =>
      case Move(phase) => MoveKeeps(toml, w, pid, phase);
      case Acquire(target) => AcquireKeeps(toml, w, pid, target);
      case Write(work) => WriteKeeps(toml, w, pid, work);
      case Return(result, previous) => ReturnKeeps(toml, w, pid, result, previous, ok);
    }
  }

  lemma ClockKeeps(toml: Toml, w: World)
    requires Inv(toml, w)
    ensures Inv(toml, w.(clock := w.clock + 1))
  {
    hide WorkOk, Justified, RevisionAt;
    var after := w.(clock := w.clock + 1);
    forall pid | pid in after.processes ensures ProcessOk(toml, after, pid) {
      assert ProcessOk(toml, w, pid);
    }
    forall t | t in after.locks ensures LockOk(after, t) {
      assert LockOk(w, t);
    }
    forall c | c in after.commits ensures CommitOk(toml, after, c) {
      assert CommitOk(toml, w, c);
    }
  }

  lemma SpawnKeeps(toml: Toml, w: World, path: Path, request: Request)
    requires Inv(toml, w)
    ensures Inv(toml, w.(processes := w.processes[w.nextPid := Process(w.nextPid, path, request, Start, 0, false)],
                         nextPid := w.nextPid + 1))
  {
    hide WorkOk, Unchanged, Justified, RevisionAt;
    var after := w.(processes := w.processes[w.nextPid := Process(w.nextPid, path, request, Start, 0, false)],
                    nextPid := w.nextPid + 1);
    forall pid | pid in after.processes ensures ProcessOk(toml, after, pid) {
      if pid != w.nextPid {
        OthersKept(toml, w, after, w.nextPid, pid);
      }
    }
    forall t | t in after.locks ensures LockOk(after, t) {
      assert LockOk(w, t);
      assert ProcessOk(toml, w, w.locks[t]);
    }
    forall c | c in after.commits ensures CommitOk(toml, after, c) {
      assert CommitOk(toml, w, c);
    }
  }

  lemma KillKeeps(toml: Toml, w: World, pid: nat)
    requires Inv(toml, w) && pid in w.processes
    ensures Inv(toml, Leave(w, w.processes[pid], None, true).(processes := w.processes - {pid}))
  {
    hide WorkOk, Unchanged, Justified, RevisionAt, SectionOf;
    var after := Leave(w, w.processes[pid], None, true).(processes := w.processes - {pid});
    assert ProcessOk(toml, w, pid);
    forall other | other in after.processes ensures ProcessOk(toml, after, other) {
      OthersKept(toml, w, after, pid, other);
    }
    forall t | t in after.locks ensures LockOk(after, t) {
      assert LockOk(w, t);
    }
    forall c | c in after.commits ensures CommitOk(toml, after, c) {
      assert CommitOk(toml, w, c);
    }
  }

  lemma OverwriteKeeps(toml: Toml, w: World, target: Path, doc: Option<Doc>)
    requires Inv(toml, w)
    ensures Inv(toml, w.(docs := if doc.Some? then w.docs[target := doc.value] else w.docs - {target},
                         touched := w.touched[target := w.clock]))
  {
    hide WorkOk, Justified;
    var after := w.(docs := if doc.Some? then w.docs[target := doc.value] else w.docs - {target},
                    touched := w.touched[target := w.clock]);
    forall pid | pid in after.processes ensures ProcessOk(toml, after, pid) {
      assert ProcessOk(toml, w, pid);
    }
    forall t | t in after.locks ensures LockOk(after, t) {
      assert LockOk(w, t);
    }
    forall c | c in after.commits ensures CommitOk(toml, after, c) {
      assert CommitOk(toml, w, c);
    }
  }

  lemma RetargetKeeps(toml: Toml, w: World, routes: map<Path, Path>, turned: map<Path, nat>)
    requires Inv(toml, w)
    ensures Inv(toml, w.(routes := routes, turned := turned))
  {
    hide WorkOk, Justified, RevisionAt;
    var after := w.(routes := routes, turned := turned);
    forall pid | pid in after.processes ensures ProcessOk(toml, after, pid) {
      assert ProcessOk(toml, w, pid);
    }
    forall t | t in after.locks ensures LockOk(after, t) {
      assert LockOk(w, t);
    }
    forall c | c in after.commits ensures CommitOk(toml, after, c) {
      assert CommitOk(toml, w, c);
    }
  }

  /** Every step keeps the invariant. */
  lemma ActKeeps(toml: Toml, w: World, action: Action)
    requires Inv(toml, w)
    ensures Inv(toml, Act(toml, w, action))
  {
    hide ProcessOk, LockOk, CommitOk, Perform, EffectOf, EffectOk, Leave;
    var after := Act(toml, w, action).(clock := w.clock);
    assert Inv(toml, after) by {
      match action {
        case Step(pid, ok) =>
          if pid in w.processes {
            EffectIsOk(toml, w, pid, ok);
            PerformKeeps(toml, w, pid, EffectOf(toml, w, w.processes[pid], ok), ok);
            PerformKeepsClock(w, pid, EffectOf(toml, w, w.processes[pid], ok), ok);
          }
        case Spawn(path, request) => SpawnKeeps(toml, w, path, request);
        case Kill(pid) =>
          if pid in w.processes {
            KillKeeps(toml, w, pid);
            LeaveKeepsClock(w, w.processes[pid], None, true);
          }
        case Overwrite(target, doc) => OverwriteKeeps(toml, w, target, doc);
        case Retarget(path, route) =>
          RetargetKeeps(toml, w, if route.Some? then w.routes[path := route.value] else w.routes - {path},
                        w.turned[path := w.clock]);
      }
    }
    ClockKeeps(toml, after);
  }

  lemma PerformKeepsClock(w: World, pid: nat, effect: Effect, ok: bool)
    requires pid in w.processes
    ensures Perform(w, pid, effect, ok).clock == w.clock
  {}

  lemma LeaveKeepsClock(w: World, p: Process, result: Option<SaveResult>, faulted: bool)
    ensures Leave(w, p, result, faulted).clock == w.clock
  {}

  lemma {:induction false} RunKeeps(toml: Toml, w: World, actions: seq<Action>)
    requires Initial(w)
    ensures Inv(toml, Run(toml, w, actions))
  {
    hide Act;
    if actions != [] {
      RunKeeps(toml, w, actions[..|actions| - 1]);
      ActKeeps(toml, Run(toml, w, actions[..|actions| - 1]), actions[|actions| - 1]);
    }
  }

  // ---------------------------------------------------------------------------
  // Every run

  /** In every run, whatever other programs write and wherever they lead paths: at
      each rename or unlink the target held the revision the change was computed
      from, unless another program wrote it after the final re-read; and what the
      call left is its request's change of that revision. */
  lemma CommitsReplaceWhatTheySaw(toml: Toml, w: World, actions: seq<Action>, c: Update)
    requires Initial(w) && c in Run(toml, w, actions).commits
    ensures c.disturbed || c.was == c.seen.revision
    ensures Justified(toml, c)
  {
    hide Run, Justified;
    RunKeeps(toml, w, actions);
    assert CommitOk(toml, Run(toml, w, actions), c);
  }

  /** In every run, no call writes a document that needs no change: what it leaves has
      other bytes than what it read, so it never creates an empty file either, or it is a
      rollback that removes a document. */
  lemma CommitsChangeBytes(toml: Toml, w: World, actions: seq<Action>, c: Update)
    requires Initial(w) && c in Run(toml, w, actions).commits
    ensures if c.now.present then c.now.bytes != c.seen.revision.bytes
            else c.request.Restore? && c.seen.revision.present && !c.request.previous.revision.present
  {
    hide Run, Patched;
    CommitsReplaceWhatTheySaw(toml, w, actions, c);
    ChangeChanges(toml, c.request, c.seen);
  }

  /** A call that returns anything but success or a durability failure has not
      changed any document. */
  lemma FailureLeavesTarget(toml: Toml, w: World, actions: seq<Action>, pid: nat)
    requires Initial(w) && pid in Run(toml, w, actions).processes
    requires var phase := Run(toml, w, actions).processes[pid].phase;
      phase.Done? && phase.result.status != Success && phase.result.status != DurabilityFailure
    ensures forall c :: c in Run(toml, w, actions).commits ==> c.pid != pid
  {
    hide Run, Justified;
    RunKeeps(toml, w, actions);
    var after := Run(toml, w, actions);
    forall c | c in after.commits ensures c.pid != pid {
      assert CommitOk(toml, after, c);
    }
  }

  /** No lost update: in every run, a save that replaces a value it had not been
      disturbed in reading carries that value as its baseline, and leaves its
      pending value. */
  lemma NoLostUpdate(toml: Toml, w: World, actions: seq<Action>, c: Update)
    requires Initial(w) && c in Run(toml, w, actions).commits && !c.request.Restore? && !c.disturbed
    ensures ParseRevision(toml, c.was, c.target) == Parsed(c.seen)
    ensures Normalize(toml, c.request.edits).Some?
    ensures ParseRevision(toml, c.now, c.target).Parsed?
    ensures var batch := Normalize(toml, c.request.edits).value;
      var now := ParseRevision(toml, c.now, c.target).snapshot;
      forall i :: 0 <= i < |batch| ==>
        && batch[i].key == c.request.edits[i].key && batch[i].baseline == c.request.edits[i].baseline
        && Same(now.ValueAt(batch[i].key), batch[i].pending)
        && (!Same(c.seen.ValueAt(batch[i].key), batch[i].pending) ==>
             Same(c.seen.ValueAt(batch[i].key), batch[i].baseline))
  {
    hide Run, PatchOf;
    CommitsReplaceWhatTheySaw(toml, w, actions, c);
    PatchProperties.SuccessMeansSeenAndRealised(toml, c.seen, c.request.edits, c.request.schema);
    var snapshot := PatchOf(toml, c.seen, c.request.edits, c.request.schema).snapshot.value;
    ParsedIsPresent(toml, snapshot);
    SamePathSameValues(toml, snapshot, c.target);
  }

  /** Values do not depend on the path a document is read by. */
  lemma SamePathSameValues(toml: Toml, snapshot: Snapshot, target: Path)
    requires ParseDocument(toml, snapshot.revision.bytes, snapshot.path) == Parsed(snapshot)
    ensures ParseRevision(toml, snapshot.revision, target).Parsed?
    ensures ParseRevision(toml, snapshot.revision, target).snapshot.overrides == snapshot.overrides
    ensures forall key :: ParseRevision(toml, snapshot.revision, target).snapshot.ValueAt(key) == snapshot.ValueAt(key)
  {}
}
