/** Runs of cooperating processes alone: every run is a serial run. */
module ProtocolSerial {
  import opened Bytes
  import opened Documents
  import opened Patch
  import opened Protocol
  import opened ProtocolSafety

  // ---------------------------------------------------------------------------
  // The serial reference

  /** What one request does to a document at rest: its result and the new document. */
  ghost function Intended(toml: Toml, path: Path, target: Path, request: Request, before: Revision): (SaveResult, Revision) {
    match ParseRevision(toml, before, target)
    case Rejected(code) => (Refused(Invalid, [Failed(code)]), before)
    case Parsed(current) =>
      var plan := Planned(toml, request, current);
      match plan
      case Answer(result) => (result, before)
      case Change(patched, _) => (Placed(patched, path), Changed(plan))
  }

  predicate Stored(status: Status) {
    status == Success || status == DurabilityFailure
  }

  /** A section without a fault is its request's serial step. With a fault or a death
      it is that step or none; a result tells which. */
  ghost predicate SectionOk(toml: Toml, s: Section) {
    var (result, after) := Intended(toml, s.path, s.target, s.request, s.before);
    && (!s.faulted ==> s.result == Some(result) && s.after == after)
    && (s.after == s.before || s.after == after)
    && (s.result.Some? ==> s.after == if Stored(s.result.value.status) then after else s.before)
  }

  /** The document after the sections so far. */
  function Latest(docs: map<Path, Doc>, log: seq<Section>, target: Path): Revision {
    if log == [] then RevisionAt(docs, target)
    else
      var last := log[|log| - 1];
      if last.target == target then last.after else Latest(docs, log[..|log| - 1], target)
  }

  /** Every section starts from what the ones before it left, in lock order. */
  ghost predicate SerialLog(toml: Toml, docs: map<Path, Doc>, log: seq<Section>) {
    && (forall k :: 0 <= k < |log| ==> SectionOk(toml, log[k]) && log[k].before == Latest(docs, log[..k], log[k].target))
    && (forall j, k :: 0 <= j < k < |log| && log[j].target == log[k].target ==> log[j].ticket < log[k].ticket)
  }

  predicate Later(log: seq<Section>, target: Path, ticket: nat) {
    forall k :: 0 <= k < |log| && log[k].target == target ==> log[k].ticket < ticket
  }

  lemma OneMoreSection(toml: Toml, docs: map<Path, Doc>, log: seq<Section>, s: Section)
    requires SerialLog(toml, docs, log) && SectionOk(toml, s)
    requires s.before == Latest(docs, log, s.target) && Later(log, s.target, s.ticket)
    ensures SerialLog(toml, docs, log + [s])
    ensures forall t :: Latest(docs, log + [s], t) == if t == s.target then s.after else Latest(docs, log, t)
  {
    hide SectionOk;
    var more := log + [s];
    assert more[..|log|] == log;
    forall k | 0 <= k < |more|
      ensures SectionOk(toml, more[k]) && more[k].before == Latest(docs, more[..k], more[k].target)
    {
      if k < |log| {
        assert more[..k] == log[..k];
      }
    }
  }

  // ---------------------------------------------------------------------------
  // The invariant

  /** The revision a process in its section started from. */
  function BeforeOf(w: World, phase: Phase): Revision {
    if phase.Replaced? then phase.work.current.revision else RevisionAt(w.docs, TargetOf(phase))
  }

  predicate SameMetadata(w: World, work: Work) {
    work.metadata.Some? ==>
      && work.target in w.docs
      && work.metadata.value == (w.docs[work.target].inode, w.docs[work.target].mode)
  }

  /** Nobody else changes the document of a process in its section. */
  predicate Undisturbed(w: World, phase: Phase) {
    HasWork(phase) ==>
      if phase.Replaced? then
        && phase.work.plan.Change? && phase.work.plan.patched.snapshot.Some?
        && RevisionAt(w.docs, phase.work.target) == Changed(phase.work.plan)
      else RevisionAt(w.docs, phase.work.target) == phase.work.current.revision && SameMetadata(w, phase.work)
  }

  predicate PathHolds(w: World, path: Path, phase: Phase) {
    !phase.Start? && !phase.Done? ==> LeadsTo(w, path, TargetOf(phase))
  }

  ghost predicate InOrder(docs: map<Path, Doc>, w: World, p: Process) {
    HoldsLock(p.phase) ==>
      && p.ticket < w.clock && Later(w.log, TargetOf(p.phase), p.ticket)
      && Latest(docs, w.log, TargetOf(p.phase)) == BeforeOf(w, p.phase)
  }

  /** Without a fault, only a rollback is refused because the document changed. */
  predicate ResultOk(p: Process) {
    if p.phase.Done? then p.phase.result.status == RevisionChanged ==> p.request.Restore? || p.faulted
    else !p.faulted
  }

  ghost predicate SerialProcess(docs: map<Path, Doc>, w: World, p: Process) {
    PathHolds(w, p.path, p.phase) && Undisturbed(w, p.phase) && InOrder(docs, w, p) && ResultOk(p)
  }

  ghost predicate SerialInv(toml: Toml, docs: map<Path, Doc>, routes: map<Path, Path>, w: World) {
    && w.routes == routes && w.touched == map[]
    && (forall pid :: pid in w.processes ==> SerialProcess(docs, w, w.processes[pid]))
    && (forall target :: target !in w.locks ==> Latest(docs, w.log, target) == RevisionAt(w.docs, target))
    && SerialLog(toml, docs, w.log)
    && (forall k :: 0 <= k < |w.log| ==> w.log[k].ticket < w.clock)
  }

  // ---------------------------------------------------------------------------
  // Effects

  /** A process that leaves its section does so with its serial step. */
  ghost predicate LeavesOk(toml: Toml, w: World, p: Process, result: Option<SaveResult>, faulted: bool) {
    HoldsLock(p.phase) ==> SectionOk(toml, SectionOf(w, p, result, faulted))
  }

  ghost predicate SerialEffect(toml: Toml, w: World, p: Process, effect: Effect, ok: bool) {
    match effect
    case Stay => true
    case Move(phase) => PathHolds(w, p.path, phase) && Undisturbed(w, phase) && !phase.Replaced?
    case Acquire(target) => true
    case Write(work) => true
    case Return(result, _) =>
      && LeavesOk(toml, w, p, Some(result), !ok)
      && (ok && result.status == RevisionChanged ==> p.request.Restore?)
  }

  lemma PatchNeverRefuses(toml: Toml, request: Request, current: Snapshot)
    requires Planned(toml, request, current).Answer?
    ensures Planned(toml, request, current).result.status == RevisionChanged ==> request.Restore?
    ensures !request.Restore? || request.previous.revision.present ==>
      Planned(toml, request, current).result.status != DurabilityFailure
  {
    hide Normalize, PlanAll, ConflictsBeforeStop, DiagnosticsOf;
  }

  lemma IntendedChange(toml: Toml, path: Path, request: Request, work: Work)
    requires WorkOk(toml, request, work)
    ensures Intended(toml, path, work.target, request, work.current.revision)
         == (Placed(work.plan.patched, path), Changed(work.plan))
    ensures Durable(work, path, Success) == Placed(work.plan.patched, path)
  {
    hide Planned, ParseRevision;
  }

  lemma IntendedAnswer(toml: Toml, path: Path, target: Path, request: Request, before: Revision)
    requires ParseRevision(toml, before, target).Parsed? ==>
      Planned(toml, request, ParseRevision(toml, before, target).snapshot).Answer?
    ensures Intended(toml, path, target, request, before)
         == (match ParseRevision(toml, before, target)
             case Rejected(code) => (Refused(Invalid, [Failed(code)]), before)
             case Parsed(current) => (Planned(toml, request, current).result, before))
  {
    hide Planned, ParseRevision;
  }

  lemma ConfirmedSerial(toml: Toml, w: World, p: Process, target: Path)
    requires p.phase == Confirmed(target) && PathHolds(w, p.path, p.phase)
    ensures SerialEffect(toml, w, p, OnConfirmed(toml, w, p, target), true)
  {
    hide Planned, ParseRevision, ParseDocument, Intended;
    var before := RevisionAt(w.docs, target);
    var read := ParseRevision(toml, before, target);
    if read.Parsed? {
      ReadIsParse(toml, before, target);
      if Planned(toml, p.request, read.snapshot).Answer? {
        PatchNeverRefuses(toml, p.request, read.snapshot);
        IntendedAnswer(toml, p.path, target, p.request, before);
      }
    } else {
      IntendedAnswer(toml, p.path, target, p.request, before);
    }
  }

  lemma WorkPresent(toml: Toml, request: Request, work: Work)
    requires WorkOk(toml, request, work)
    ensures work.plan.removal ==> work.current.revision.present
  {
    hide Patched, ParseRevision;
  }

  /** Cooperating processes never find the document changed under their lock. */
  lemma WorkSerial(toml: Toml, docs: map<Path, Doc>, w: World, pid: nat)
    requires pid in w.processes && ProcessOk(toml, w, pid) && SerialProcess(docs, w, w.processes[pid])
    requires HasWork(w.processes[pid].phase)
    ensures SerialEffect(toml, w, w.processes[pid], OnSuccess(toml, w, w.processes[pid]), true)
  {
    hide Planned, ParseRevision, ParseDocument, Intended, InOrder;
    var p := w.processes[pid];
    WorkPresent(toml, p.request, p.phase.work);
    if p.phase.Replaced? {
      IntendedChange(toml, p.path, p.request, p.phase.work);
    }
  }

  lemma OtherSerial(toml: Toml, docs: map<Path, Doc>, w: World, p: Process)
    requires SerialProcess(docs, w, p) && !HasWork(p.phase) && !p.phase.Confirmed?
    ensures SerialEffect(toml, w, p, OnSuccess(toml, w, p), true)
  {
    hide ParseRevision, InOrder, SectionOk;
  }

  lemma FaultSerial(toml: Toml, docs: map<Path, Doc>, w: World, pid: nat)
    requires pid in w.processes && ProcessOk(toml, w, pid) && SerialProcess(docs, w, w.processes[pid])
    ensures SerialEffect(toml, w, w.processes[pid], OnFault(w.processes[pid]), false)
    ensures LeavesOk(toml, w, w.processes[pid], None, true)
  {
    hide Planned, ParseRevision, ParseDocument, Intended, InOrder;
    var p := w.processes[pid];
    if p.phase.Replaced? {
      IntendedChange(toml, p.path, p.request, p.phase.work);
    }
  }

  lemma EffectIsSerial(toml: Toml, docs: map<Path, Doc>, w: World, pid: nat, ok: bool)
    requires pid in w.processes && ProcessOk(toml, w, pid) && SerialProcess(docs, w, w.processes[pid])
    ensures SerialEffect(toml, w, w.processes[pid], EffectOf(toml, w, w.processes[pid], ok), ok)
  {
    hide SerialEffect, ProcessOk, OnFault;
    var p := w.processes[pid];
    if !ok {
      FaultSerial(toml, docs, w, pid);
    } else if HasWork(p.phase) {
      WorkSerial(toml, docs, w, pid);
    } else if p.phase.Confirmed? {
      ConfirmedSerial(toml, w, p, p.phase.target);
    } else {
      OtherSerial(toml, docs, w, p);
    }
  }

  // ---------------------------------------------------------------------------
  // Preservation

  function Tick(w: World): World {
    w.(clock := w.clock + 1)
  }

  /** A process whose section, if any, has seen nothing new. */
  lemma SerialKept(docs: map<Path, Doc>, w: World, after: World, p: Process)
    requires SerialProcess(docs, w, p) && after.routes == w.routes && after.clock >= w.clock
    requires HoldsLock(p.phase) ==>
      var target := TargetOf(p.phase);
      && (target in after.docs <==> target in w.docs)
      && (target in w.docs ==> after.docs[target] == w.docs[target])
      && Latest(docs, after.log, target) == Latest(docs, w.log, target)
      && (Later(w.log, target, p.ticket) ==> Later(after.log, target, p.ticket))
    ensures SerialProcess(docs, after, p)
  {
    hide Latest, Later;
  }

  lemma SerialMove(toml: Toml, docs: map<Path, Doc>, routes: map<Path, Path>, w: World, pid: nat, phase: Phase)
    requires SerialInv(toml, docs, routes, w) && pid in w.processes
    requires EffectOk(toml, w, w.processes[pid], Move(phase))
    requires SerialEffect(toml, w, w.processes[pid], Move(phase), true)
    ensures SerialInv(toml, docs, routes, Tick(Perform(w, pid, Move(phase), true)))
  {
    hide Latest, Later, SerialLog, PhaseOk;
    var p := w.processes[pid];
    var after := Tick(Perform(w, pid, Move(phase), true));
    forall other | other in after.processes ensures SerialProcess(docs, after, after.processes[other]) {
      if other != pid {
        SerialKept(docs, w, after, w.processes[other]);
      } else {
        assert SerialProcess(docs, w, p);
        assert HoldsLock(phase) ==> BeforeOf(w, phase) == BeforeOf(w, p.phase);
      }
    }
  }

  lemma SerialAcquire(toml: Toml, docs: map<Path, Doc>, routes: map<Path, Path>, w: World, pid: nat, target: Path)
    requires SerialInv(toml, docs, routes, w) && pid in w.processes
    requires EffectOk(toml, w, w.processes[pid], Acquire(target))
    ensures SerialInv(toml, docs, routes, Tick(Perform(w, pid, Acquire(target), true)))
  {
    hide Latest, SerialLog;
    var after := Tick(Perform(w, pid, Acquire(target), true));
    forall other | other in after.processes ensures SerialProcess(docs, after, after.processes[other]) {
      if other != pid {
        SerialKept(docs, w, after, w.processes[other]);
      } else {
        assert SerialProcess(docs, w, w.processes[pid]);
      }
    }
  }

  lemma SerialWrite(toml: Toml, docs: map<Path, Doc>, routes: map<Path, Path>, w: World, pid: nat, work: Work)
    requires Inv(toml, w) && SerialInv(toml, docs, routes, w) && pid in w.processes
    requires EffectOk(toml, w, w.processes[pid], Write(work))
    ensures SerialInv(toml, docs, routes, Tick(Perform(w, pid, Write(work), true)))
  {
    hide Latest, Later, SerialLog, AfterWrite, Changed, Unchanged, WorkOk;
    var after := Tick(Perform(w, pid, Write(work), true));
    assert ProcessOk(toml, w, pid);
    WriteIsJustified(toml, w, w.processes[pid].request, work);
    WorkHasChange(toml, w.processes[pid].request, work);
    forall other | other in after.processes ensures SerialProcess(docs, after, after.processes[other]) {
      if other != pid {
        var q := w.processes[other];
        assert ProcessOk(toml, w, other);
        if HoldsLock(q.phase) {
          OtherDocs(w, work, TargetOf(q.phase));
        }
        SerialKept(docs, w, after, q);
      } else {
        assert SerialProcess(docs, w, w.processes[pid]);
      }
    }
    forall t | t !in after.locks ensures Latest(docs, after.log, t) == RevisionAt(after.docs, t) {
      OtherDocs(w, work, t);
    }
  }

  lemma OtherDocs(w: World, work: Work, target: Path)
    requires target != work.target
    ensures target in AfterWrite(w, work) <==> target in w.docs
    ensures target in w.docs ==> AfterWrite(w, work)[target] == w.docs[target]
  {}

  lemma DistinctSections(toml: Toml, w: World, pid: nat, other: nat)
    requires pid in w.processes && other in w.processes && pid != other
    requires ProcessOk(toml, w, pid) && ProcessOk(toml, w, other)
    requires HoldsLock(w.processes[pid].phase) && HoldsLock(w.processes[other].phase)
    ensures TargetOf(w.processes[pid].phase) != TargetOf(w.processes[other].phase)
  {}

  lemma LaterKept(log: seq<Section>, s: Section, target: Path, ticket: nat)
    requires Later(log, target, ticket) && s.target != target
    ensures Later(log + [s], target, ticket)
  {}

  /** The log after a process leaves. */
  lemma LogAfterLeave(toml: Toml, docs: map<Path, Doc>, routes: map<Path, Path>, w: World, p: Process,
                      result: Option<SaveResult>, faulted: bool)
    requires SerialInv(toml, docs, routes, w) && SerialProcess(docs, w, p) && LeavesOk(toml, w, p, result, faulted)
    ensures var after := Leave(w, p, result, faulted);
      && SerialLog(toml, docs, after.log)
      && (forall k :: 0 <= k < |after.log| ==> after.log[k].ticket < w.clock + 1)
      && (forall t :: t !in after.locks ==> Latest(docs, after.log, t) == RevisionAt(after.docs, t))
      && (forall t :: !HoldsLock(p.phase) || t != TargetOf(p.phase) ==> Latest(docs, after.log, t) == Latest(docs, w.log, t))
  {
    hide Latest, SerialLog, SectionOk, SerialProcess;
    if HoldsLock(p.phase) {
      SectionStarts(docs, w, p, result, faulted);
      OneMoreSection(toml, docs, w.log, SectionOf(w, p, result, faulted));
    }
  }

  lemma SectionStarts(docs: map<Path, Doc>, w: World, p: Process, result: Option<SaveResult>, faulted: bool)
    requires SerialProcess(docs, w, p) && HoldsLock(p.phase)
    ensures var s := SectionOf(w, p, result, faulted);
      && s.before == Latest(docs, w.log, s.target) && Later(w.log, s.target, s.ticket) && s.ticket < w.clock
      && s.target == TargetOf(p.phase) && s.after == RevisionAt(w.docs, s.target)
  {
    hide Latest, Later;
  }

  /** Leaving a section appends its serial step. */
  lemma SerialLeave(toml: Toml, docs: map<Path, Doc>, routes: map<Path, Path>, w: World, pid: nat,
                    result: Option<SaveResult>, faulted: bool, processes: map<nat, Process>)
    requires Inv(toml, w) && SerialInv(toml, docs, routes, w) && pid in w.processes
    requires LeavesOk(toml, w, w.processes[pid], result, faulted)
    requires forall other :: other in processes && other != pid ==> other in w.processes && processes[other] == w.processes[other]
    requires pid in processes ==> processes[pid].phase.Done? && ResultOk(processes[pid])
    ensures SerialInv(toml, docs, routes, Tick(Leave(w, w.processes[pid], result, faulted).(processes := processes)))
  {
    hide Latest, SerialLog, Later, ProcessOk, LockOk, CommitOk, LeavesOk, SerialProcess;
    var p := w.processes[pid];
    var after := Tick(Leave(w, p, result, faulted).(processes := processes));
    LogAfterLeave(toml, docs, routes, w, p, result, faulted);
    forall other | other in after.processes ensures SerialProcess(docs, after, after.processes[other]) {
      if other != pid {
        LeaveOther(toml, docs, routes, w, pid, result, faulted, other, after);
      } else {
        DoneIsSerial(docs, after, processes[pid]);
      }
    }
  }

  lemma DoneIsSerial(docs: map<Path, Doc>, w: World, p: Process)
    requires p.phase.Done? && ResultOk(p)
    ensures SerialProcess(docs, w, p)
  {}

  lemma LeaveOther(toml: Toml, docs: map<Path, Doc>, routes: map<Path, Path>, w: World, pid: nat,
                   result: Option<SaveResult>, faulted: bool, other: nat, after: World)
    requires Inv(toml, w) && SerialInv(toml, docs, routes, w) && pid in w.processes && other in w.processes && other != pid
    requires after.docs == w.docs && after.routes == w.routes && after.clock == w.clock + 1
    requires after.log == Leave(w, w.processes[pid], result, faulted).log
    requires forall t :: !HoldsLock(w.processes[pid].phase) || t != TargetOf(w.processes[pid].phase) ==>
      Latest(docs, after.log, t) == Latest(docs, w.log, t)
    ensures SerialProcess(docs, after, w.processes[other])
  {
    hide Latest, SerialLog, Later, WorkOk, Unchanged;
    var p, q := w.processes[pid], w.processes[other];
    assert ProcessOk(toml, w, pid) && ProcessOk(toml, w, other);
    if HoldsLock(p.phase) && HoldsLock(q.phase) {
      DistinctSections(toml, w, pid, other);
      if Later(w.log, TargetOf(q.phase), q.ticket) {
        LaterKept(w.log, SectionOf(w, p, result, faulted), TargetOf(q.phase), q.ticket);
      }
    }
    SerialKept(docs, w, after, q);
  }

  lemma SerialPerform(toml: Toml, docs: map<Path, Doc>, routes: map<Path, Path>, w: World, pid: nat, effect: Effect, ok: bool)
    requires Inv(toml, w) && SerialInv(toml, docs, routes, w) && pid in w.processes
    requires EffectOk(toml, w, w.processes[pid], effect) && SerialEffect(toml, w, w.processes[pid], effect, ok)
    ensures SerialInv(toml, docs, routes, Tick(Perform(w, pid, effect, ok)))
  {
    hide Inv, SerialInv, EffectOk, LeavesOk;
    match effect {
      case Stay => SerialTick(toml, docs, routes, w);
      case Move(phase) => SerialMove(toml, docs, routes, w, pid, phase);
      case Acquire(target) => SerialAcquire(toml, docs, routes, w, pid, target);
      case Write(work) => SerialWrite(toml, docs, routes, w, pid, work);
      case Return(result, previous) =>
        var p := w.processes[pid];
        var after := w.processes[pid := p.(phase := Done(result, previous), faulted := !ok)];
        SerialLeave(toml, docs, routes, w, pid, Some(result), !ok, after);
    }
  }

  lemma SerialTick(toml: Toml, docs: map<Path, Doc>, routes: map<Path, Path>, w: World)
    requires SerialInv(toml, docs, routes, w)
    ensures SerialInv(toml, docs, routes, Tick(w))
  {
    hide Latest, Later, SerialLog;
    forall pid | pid in w.processes ensures SerialProcess(docs, Tick(w), w.processes[pid]) {
      SerialKept(docs, w, Tick(w), w.processes[pid]);
    }
  }

  lemma SerialSpawn(toml: Toml, docs: map<Path, Doc>, routes: map<Path, Path>, w: World, path: Path, request: Request)
    requires SerialInv(toml, docs, routes, w)
    ensures SerialInv(toml, docs, routes,
                      Tick(w.(processes := w.processes[w.nextPid := Process(w.nextPid, path, request, Start, 0, false)],
                              nextPid := w.nextPid + 1)))
  {
    hide Latest, Later, SerialLog;
    var after := Tick(w.(processes := w.processes[w.nextPid := Process(w.nextPid, path, request, Start, 0, false)],
                         nextPid := w.nextPid + 1));
    forall pid | pid in after.processes ensures SerialProcess(docs, after, after.processes[pid]) {
      if pid != w.nextPid {
        SerialKept(docs, w, after, w.processes[pid]);
      }
    }
  }

  /** Only processes that follow the protocol act; they may fail or die. */
  predicate Cooperating(actions: seq<Action>) {
    forall i :: 0 <= i < |actions| ==> actions[i].Step? || actions[i].Spawn? || actions[i].Kill?
  }

  lemma SerialAct(toml: Toml, docs: map<Path, Doc>, routes: map<Path, Path>, w: World, action: Action)
    requires Inv(toml, w) && SerialInv(toml, docs, routes, w)
    requires action.Step? || action.Spawn? || action.Kill?
    ensures SerialInv(toml, docs, routes, Act(toml, w, action))
  {
    hide SerialProcess, ProcessOk, LockOk, CommitOk, Perform, EffectOf, EffectOk, SerialEffect, LeavesOk, Latest, SerialLog, Leave;
    match action {
      case Step(pid, ok) =>
        if pid in w.processes {
          EffectIsOk(toml, w, pid, ok);
          EffectIsSerial(toml, docs, w, pid, ok);
          SerialPerform(toml, docs, routes, w, pid, EffectOf(toml, w, w.processes[pid], ok), ok);
          PerformKeepsClock(w, pid, EffectOf(toml, w, w.processes[pid], ok), ok);
        } else {
          SerialTick(toml, docs, routes, w);
        }
      case Spawn(path, request) => SerialSpawn(toml, docs, routes, w, path, request);
      case Kill(pid) =>
        if pid in w.processes {
          FaultSerial(toml, docs, w, pid);
          SerialLeave(toml, docs, routes, w, pid, None, true, w.processes - {pid});
          LeaveKeepsClock(w, w.processes[pid], None, true);
        } else {
          SerialTick(toml, docs, routes, w);
        }
    }
  }

  lemma {:induction false} SerialRun(toml: Toml, w: World, actions: seq<Action>)
    requires Initial(w) && Cooperating(actions)
    ensures SerialInv(toml, w.docs, w.routes, Run(toml, w, actions))
  {
    hide Act;
    if actions != [] {
      var front := actions[..|actions| - 1];
      SerialRun(toml, w, front);
      RunKeeps(toml, w, front);
      SerialAct(toml, w.docs, w.routes, Run(toml, w, front), actions[|actions| - 1]);
    }
  }

  // ---------------------------------------------------------------------------
  // Every cooperating run

  /** Every run of cooperating processes equals the serial run of its critical
      sections in lock order: each section is its request's serial step from what
      the sections before it left (or, with a fault or death, none), and a document
      nobody is working on is what the last section left. */
  lemma RunsAreSerial(toml: Toml, w: World, actions: seq<Action>)
    requires Initial(w) && Cooperating(actions)
    ensures var after := Run(toml, w, actions);
      && SerialLog(toml, w.docs, after.log)
      && forall target :: target !in after.locks ==>
           RevisionAt(after.docs, target) == Latest(w.docs, after.log, target)
  {
    hide Run, SerialLog, Latest;
    SerialRun(toml, w, actions);
  }

  /** Without a fault no save or staging call is refused because the document changed. */
  lemma SavesAreNotRefused(toml: Toml, w: World, actions: seq<Action>, pid: nat)
    requires Initial(w) && Cooperating(actions) && pid in Run(toml, w, actions).processes
    requires var p := Run(toml, w, actions).processes[pid];
      p.phase.Done? && !p.faulted && !p.request.Restore?
    ensures Run(toml, w, actions).processes[pid].phase.result.status != RevisionChanged
  {
    hide Run, SerialLog, Latest;
    SerialRun(toml, w, actions);
    var after := Run(toml, w, actions);
    assert SerialProcess(w.docs, after, after.processes[pid]);
  }
}
