/** The checks before a change: at each rename or unlink the caller's path still leads to
    the target and the document keeps its permissions, unless another program has
    interfered since the final re-read. */
module ProtocolChecks {
  import opened Bytes
  import opened Documents
  import opened Protocol
  import opened ProtocolSafety
  import opened ProtocolSerial

  predicate TurnedSince(w: World, path: Path, since: nat) {
    path in w.turned && w.turned[path] >= since
  }

  /** Under the lock the path has been followed again, and before a change once more, and
      the metadata compared. */
  predicate Checked(w: World, p: Process) {
    && (HoldsLock(p.phase) ==> p.ticket <= w.clock)
    && (HoldsLock(p.phase) && !p.phase.Holding? ==>
         TurnedSince(w, p.path, p.ticket) || LeadsTo(w, p.path, TargetOf(p.phase)))
    && (p.phase.Rerouted? || p.phase.Verified? ==>
         TurnedSince(w, p.path, p.phase.work.since) || LeadsTo(w, p.path, p.phase.work.target))
    && (p.phase.Verified? ==>
         TouchedSince(w, p.phase.work.target, p.phase.work.since) || SameMetadata(w, p.phase.work))
  }

  /** Metadata is at hand exactly when a document is to be replaced. */
  predicate Inspected(p: Process) {
    && (p.phase.Decided? ==> p.phase.work.metadata.None?)
    && (p.phase.Ready? || p.phase.Reread? || p.phase.Rerouted? || p.phase.Verified? ==>
      (p.phase.work.metadata.Some? <==>
        p.phase.work.plan.Change? && !p.phase.work.plan.removal && p.phase.work.current.revision.present))
  }

  ghost predicate ChecksInv(w: World) {
    forall pid :: pid in w.processes ==> Checked(w, w.processes[pid]) && Inspected(w.processes[pid])
  }

  lemma MoveIsChecked(toml: Toml, w: World, p: Process, ok: bool)
    requires Checked(w, p) && Inspected(p) && EffectOf(toml, w, p, ok).Move?
    ensures Checked(w, p.(phase := EffectOf(toml, w, p, ok).phase))
    ensures Inspected(p.(phase := EffectOf(toml, w, p, ok).phase))
  {
    hide Planned, ParseRevision, RollbackTargetMatches;
  }

  /** A step of another process leaves the path and the locked document alone. */
  lemma OtherChecked(toml: Toml, w: World, pid: nat, effect: Effect, ok: bool, other: nat)
    requires Inv(toml, w) && pid in w.processes && other in w.processes && other != pid
    requires EffectOk(toml, w, w.processes[pid], effect) && Checked(w, w.processes[other])
    ensures Checked(Perform(w, pid, effect, ok), w.processes[other])
  {
    hide Inv, PhaseOk, Checked, EffectOf, SectionOf, AfterWrite, HoldsLock, TargetOf;
    var after, q := Perform(w, pid, effect, ok), w.processes[other];
    if effect.Write? {
      InvParts(toml, w, pid);
      InvParts(toml, w, other);
      OtherWritten(toml, w, after, pid, effect.work, other);
    } else {
      CheckedAlike(w, after, q);
    }
  }

  lemma OtherWritten(toml: Toml, w: World, after: World, pid: nat, work: Work, other: nat)
    requires pid in w.processes && other in w.processes && other != pid
    requires ProcessOk(toml, w, pid) && ProcessOk(toml, w, other)
    requires w.processes[pid].phase == Verified(work) && Checked(w, w.processes[other])
    requires after.docs == AfterWrite(w, work) && after.routes == w.routes && after.clock >= w.clock
    requires after.touched == w.touched && after.turned == w.turned
    ensures Checked(after, w.processes[other])
  {
    hide PhaseOk, ProcessOk, RevisionAt, NewDoc;
    if w.processes[other].phase.Verified? {
      Apart(toml, w, pid, other);
    }
  }

  lemma InvParts(toml: Toml, w: World, pid: nat)
    requires Inv(toml, w) && pid in w.processes
    ensures ProcessOk(toml, w, pid)
  {}

  lemma Apart(toml: Toml, w: World, pid: nat, other: nat)
    requires pid in w.processes && other in w.processes && other != pid
    requires ProcessOk(toml, w, pid) && ProcessOk(toml, w, other)
    requires HoldsLock(w.processes[pid].phase) && HoldsLock(w.processes[other].phase)
    ensures TargetOf(w.processes[pid].phase) != TargetOf(w.processes[other].phase)
  {
    hide PhaseOk;
  }

  lemma OthersStay(w: World, pid: nat, effect: Effect, ok: bool)
    requires pid in w.processes
    ensures var after := Perform(w, pid, effect, ok);
      forall other :: other in after.processes ==>
        other in w.processes && (other != pid ==> after.processes[other] == w.processes[other])
  {
    hide SectionOf, AfterWrite;
  }

  lemma StepChecked(toml: Toml, w: World, pid: nat, ok: bool)
    requires ChecksInv(w) && Inv(toml, w) && pid in w.processes
    ensures ChecksInv(Perform(w, pid, EffectOf(toml, w, w.processes[pid], ok), ok))
  {
    hide EffectOf, EffectOk, Inv, Checked, Inspected, Perform, ProcessOk;
    var effect := EffectOf(toml, w, w.processes[pid], ok);
    InvParts(toml, w, pid);
    EffectIsOk(toml, w, pid, ok);
    OthersStay(w, pid, effect, ok);
    var after := Perform(w, pid, effect, ok);
    forall other | other in after.processes
      ensures Checked(after, after.processes[other]) && Inspected(after.processes[other])
    {
      if other != pid {
        OtherChecked(toml, w, pid, effect, ok, other);
      } else {
        OwnChecked(toml, w, pid, ok);
      }
    }
  }

  lemma OwnChecked(toml: Toml, w: World, pid: nat, ok: bool)
    requires pid in w.processes && Checked(w, w.processes[pid]) && Inspected(w.processes[pid])
    ensures var after := Perform(w, pid, EffectOf(toml, w, w.processes[pid], ok), ok);
      pid in after.processes && Checked(after, after.processes[pid]) && Inspected(after.processes[pid])
  {
    hide EffectOf, AfterWrite, SectionOf, Checked, HoldsLock, TargetOf, RevisionAt;
    var after := Perform(w, pid, EffectOf(toml, w, w.processes[pid], ok), ok);
    match EffectOf(toml, w, w.processes[pid], ok) {
      case Stay =>
      case Move(_) =>
        MoveIsChecked(toml, w, w.processes[pid], ok);
        CheckedAlike(w, after, after.processes[pid]);
      case Acquire(_) =>
        AcquireChecked(after, after.processes[pid]);
      case Write(work) =>
        WriteIsVerified(toml, w, w.processes[pid], ok);
        WriteChecked(w, after, w.processes[pid], work);
      case Return(_, _) =>
        NotChecking(after, after.processes[pid]);
    }
  }

  lemma WriteIsVerified(toml: Toml, w: World, p: Process, ok: bool)
    requires EffectOf(toml, w, p, ok).Write?
    ensures p.phase == Verified(EffectOf(toml, w, p, ok).work)
  {
    hide Planned, ParseRevision, RollbackTargetMatches;
  }

  lemma AcquireChecked(w: World, p: Process)
    requires p.phase.Holding? && p.ticket <= w.clock
    ensures Checked(w, p)
  {}

  lemma WriteChecked(w: World, after: World, p: Process, work: Work)
    requires Checked(w, p) && p.phase == Verified(work)
    requires after.routes == w.routes && after.turned == w.turned && after.clock >= w.clock
    ensures Checked(after, p.(phase := Replaced(work)))
  {}

  lemma CheckedAlike(w: World, after: World, p: Process)
    requires Checked(w, p) && after.docs == w.docs && after.routes == w.routes
    requires after.touched == w.touched && after.turned == w.turned && after.clock >= w.clock
    ensures Checked(after, p)
  {}

  lemma NotChecking(w: World, p: Process)
    requires p.phase.Start? || p.phase.Done?
    ensures Checked(w, p)
  {}

  lemma OverwriteChecked(w: World, after: World, target: Path, p: Process)
    requires Checked(w, p) && (AfterReread(p.phase) ==> p.phase.work.since <= w.clock)
    requires after.routes == w.routes && after.turned == w.turned && after.touched == w.touched[target := w.clock]
    requires after.clock >= w.clock
    requires forall other :: other != target ==>
      (other in after.docs <==> other in w.docs) && (other in w.docs ==> after.docs[other] == w.docs[other])
    ensures Checked(after, p)
  {}

  lemma RetargetChecked(w: World, after: World, path: Path, p: Process)
    requires Checked(w, p) && (AfterReread(p.phase) ==> p.phase.work.since <= w.clock)
    requires after.docs == w.docs && after.touched == w.touched && after.turned == w.turned[path := w.clock]
    requires after.clock >= w.clock
    requires forall other :: other != path ==>
      (other in after.routes <==> other in w.routes) && (other in w.routes ==> after.routes[other] == w.routes[other])
    ensures Checked(after, p)
  {}

  lemma QuietKeepsChecked(toml: Toml, w: World, action: Action, p: Process)
    requires !action.Step? && Checked(w, p) && (AfterReread(p.phase) ==> p.phase.work.since <= w.clock)
    ensures Checked(Act(toml, w, action), p)
  {
    hide SectionOf, Checked, EffectOf, Perform, HoldsLock, AfterReread;
    var after := Act(toml, w, action);
    match action {
      case Overwrite(target, _) => OverwriteChecked(w, after, target, p);
      case Retarget(path, _) => RetargetChecked(w, after, path, p);
      case _ => CheckedAlike(w, after, p);
    }
  }

  /** What other programs do is on record, and neither a new process nor a death matters. */
  lemma QuietChecked(toml: Toml, w: World, action: Action)
    requires ChecksInv(w) && Inv(toml, w) && !action.Step?
    ensures ChecksInv(Act(toml, w, action))
  {
    hide Inv, ProcessOk, SectionOf, Checked, Inspected;
    var after := Act(toml, w, action);
    forall pid | pid in after.processes ensures Checked(after, after.processes[pid]) && Inspected(after.processes[pid]) {
      var p := after.processes[pid];
      if p.phase == Start {
        NotChecking(after, p);
        StartInspected(p);
      } else {
        InvParts(toml, w, pid);
        SinceIsPast(toml, w, pid);
        QuietKeepsChecked(toml, w, action, p);
      }
    }
  }

  lemma StartInspected(p: Process)
    requires p.phase == Start
    ensures Inspected(p)
  {}

  lemma SinceIsPast(toml: Toml, w: World, pid: nat)
    requires pid in w.processes && ProcessOk(toml, w, pid)
    ensures AfterReread(w.processes[pid].phase) ==> w.processes[pid].phase.work.since <= w.clock
  {}

  lemma ActChecked(toml: Toml, w: World, action: Action)
    requires ChecksInv(w) && Inv(toml, w)
    ensures ChecksInv(Act(toml, w, action))
  {
    hide Inv, EffectOf, Perform, Checked, Inspected;
    if action.Step? {
      if action.pid in w.processes {
        StepChecked(toml, w, action.pid, action.ok);
        TickChecked(Perform(w, action.pid, EffectOf(toml, w, w.processes[action.pid], action.ok), action.ok));
        PerformKeepsClock(w, action.pid, EffectOf(toml, w, w.processes[action.pid], action.ok), action.ok);
      } else {
        TickChecked(w);
      }
    } else {
      QuietChecked(toml, w, action);
    }
  }

  lemma TickChecked(w: World)
    requires ChecksInv(w)
    ensures ChecksInv(w.(clock := w.clock + 1))
  {}

  lemma {:induction false} RunChecked(toml: Toml, w: World, actions: seq<Action>)
    requires Initial(w)
    ensures ChecksInv(Run(toml, w, actions))
  {
    hide Act, Checked, Inspected;
    if actions != [] {
      RunChecked(toml, w, actions[..|actions| - 1]);
      RunKeeps(toml, w, actions[..|actions| - 1]);
      ActChecked(toml, Run(toml, w, actions[..|actions| - 1]), actions[|actions| - 1]);
    }
  }

  /** The permission bits of the document at `target`. */
  function ModeAt(docs: map<Path, Doc>, target: Path): Option<nat> {
    if target in docs then Some(docs[target].mode % 4096) else None
  }

  /** In every run, at each rename or unlink: the caller's path leads to the target,
      unless another program has led it elsewhere since the final re-read; a document
      that is replaced keeps its permission bits, unless another program has written it
      since then; and a new one is private to its owner. */
  lemma CommitsAreChecked(toml: Toml, w: World, actions: seq<Action>, action: Action) returns (p: Process)
    requires Initial(w)
    requires |Run(toml, w, actions + [action]).commits| > |Run(toml, w, actions).commits|
    ensures var (before, after) := (Run(toml, w, actions), Run(toml, w, actions + [action]));
      && |after.commits| == |before.commits| + 1
      && var c := after.commits[|before.commits|];
         && c.pid in before.processes && p == before.processes[c.pid] && p.phase.Verified? && p.phase.work.target == c.target
         && (TurnedSince(before, p.path, p.phase.work.since) || LeadsTo(before, p.path, c.target))
         && (c.now.present && !c.disturbed ==>
              ModeAt(after.docs, c.target) == if c.was.present then ModeAt(before.docs, c.target) else Some(0x180))
  {
    hide Run, Inv, Planned, PhaseOk, WorkOk, Justified;
    RunOneMore(toml, w, actions, action);
    var before := Run(toml, w, actions);
    RunKeeps(toml, w, actions);
    RunChecked(toml, w, actions);
    p := CommitStep(toml, before, action);
  }

  /** In every run, whenever a call under its lock reads the document and decides: its path
      leads to the target, unless another program has led it elsewhere since the lock was
      taken. So a call answers for the document its path leads to, even if it waited long
      for the lock. */
  lemma DecisionsAreChecked(toml: Toml, w: World, actions: seq<Action>, pid: nat)
    requires Initial(w) && pid in Run(toml, w, actions).processes && Run(toml, w, actions).processes[pid].phase.Confirmed?
    ensures var after := Run(toml, w, actions);
      var p := after.processes[pid];
      && p.phase.target in after.locks && after.locks[p.phase.target] == pid
      && (TurnedSince(after, p.path, p.ticket) || LeadsTo(after, p.path, p.phase.target))
  {
    hide Run, Inv, TurnedSince, LeadsTo;
    RunKeeps(toml, w, actions);
    RunChecked(toml, w, actions);
    InvParts(toml, Run(toml, w, actions), pid);
    assert Checked(Run(toml, w, actions), Run(toml, w, actions).processes[pid]);
  }

  lemma RunOneMore(toml: Toml, w: World, actions: seq<Action>, action: Action)
    ensures Run(toml, w, actions + [action]) == Act(toml, Run(toml, w, actions), action)
  {
    hide Act;
    assert (actions + [action])[..|actions|] == actions;
  }

  lemma OnlyWritesCommit(toml: Toml, w: World, action: Action)
    requires |Act(toml, w, action).commits| > |w.commits|
    ensures action.Step? && action.pid in w.processes
    ensures EffectOf(toml, w, w.processes[action.pid], action.ok).Write?
  {
    hide EffectOf, AfterWrite, SectionOf;
  }

  lemma CommitStep(toml: Toml, w: World, action: Action) returns (p: Process)
    requires Inv(toml, w) && ChecksInv(w) && |Act(toml, w, action).commits| > |w.commits|
    ensures var after := Act(toml, w, action);
      && |after.commits| == |w.commits| + 1
      && var c := after.commits[|w.commits|];
         && c.pid in w.processes && p == w.processes[c.pid] && p.phase.Verified? && p.phase.work.target == c.target
         && (TurnedSince(w, p.path, p.phase.work.since) || LeadsTo(w, p.path, c.target))
         && (c.now.present && !c.disturbed ==>
              ModeAt(after.docs, c.target) == if c.was.present then ModeAt(w.docs, c.target) else Some(0x180))
  {
    hide Inv, EffectOf, PhaseOk, LeadsTo, TurnedSince;
    OnlyWritesCommit(toml, w, action);
    var pid := action.pid;
    p := w.processes[pid];
    InvParts(toml, w, pid);
    EffectIsOk(toml, w, pid, action.ok);
    var work := EffectOf(toml, w, p, action.ok).work;
    assert p.phase == Verified(work) && Checked(w, p) && Inspected(p);
    WrittenMode(toml, w, p.request, work);
    FoundAsSeen(toml, w, pid);
  }

  /** At an undisturbed change the document is there exactly if it was when it was read. */
  lemma FoundAsSeen(toml: Toml, w: World, pid: nat)
    requires pid in w.processes && ProcessOk(toml, w, pid) && w.processes[pid].phase.Verified?
    ensures var work := w.processes[pid].phase.work;
      TouchedSince(w, work.target, work.since) || RevisionAt(w.docs, work.target) == work.current.revision
  {
    hide WorkOk, RevisionAt;
  }

  lemma WrittenMode(toml: Toml, w: World, request: Request, work: Work)
    requires TouchedSince(w, work.target, work.since) || SameMetadata(w, work)
    requires work.metadata.Some? <==> work.plan.Change? && !work.plan.removal && work.current.revision.present
    ensures TouchedSince(w, work.target, work.since) || !RevisionAt(AfterWrite(w, work), work.target).present
      || !(work.plan.Change? && work.plan.patched.snapshot.Some?)
      || ModeAt(AfterWrite(w, work), work.target)
         == if work.current.revision.present then ModeAt(w.docs, work.target) else Some(0x180)
  {
    if work.plan.Change? && work.plan.patched.snapshot.Some? && RevisionAt(AfterWrite(w, work), work.target).present
       && !TouchedSince(w, work.target, work.since) && work.target in w.docs {
      ModeTwice(w.docs[work.target].mode);
    }
  }

  lemma ModeTwice(mode: nat)
    ensures mode % 4096 % 4096 == mode % 4096
  {}
}
