/** What a call has returned is what its critical section did, in every run. */
module ProtocolResults {
  import opened Bytes
  import opened Documents
  import opened Protocol
  import opened ProtocolSafety
  import opened ProtocolSerial

  /** The section is the one the call has returned from. */
  ghost predicate IsSectionOf(s: Section, p: Process) {
    && s.pid == p.pid && s.path == p.path && s.request == p.request && s.ticket == p.ticket && s.faulted == p.faulted
    && p.phase.Done? && s.result == Some(p.phase.result)
  }

  /** No critical section of this process has ended. */
  predicate NoSection(log: seq<Section>, pid: nat) {
    forall k :: 0 <= k < |log| ==> log[k].pid != pid
  }

  ghost predicate HasSection(log: seq<Section>, p: Process) {
    exists k :: 0 <= k < |log| && IsSectionOf(log[k], p)
  }

  /** A running process has no section behind it; one that has returned has either
      returned from its section, or stored nothing and had none. */
  ghost predicate Accounted(log: seq<Section>, p: Process) {
    if !p.phase.Done? then NoSection(log, p.pid)
    else HasSection(log, p) || (NoSection(log, p.pid) && !Stored(p.phase.result.status))
  }

  ghost predicate LogInv(w: World) {
    && (forall pid :: pid in w.processes ==> w.processes[pid].pid == pid && Accounted(w.log, w.processes[pid]))
    && (forall k :: 0 <= k < |w.log| ==> w.log[k].pid < w.nextPid)
  }

  lemma AccountedOnward(log: seq<Section>, s: Section, p: Process)
    requires Accounted(log, p) && s.pid != p.pid
    ensures Accounted(log + [s], p)
  {
    hide IsSectionOf;
    if HasSection(log, p) {
      var k :| 0 <= k < |log| && IsSectionOf(log[k], p);
      assert IsSectionOf((log + [s])[k], p);
    }
  }

  /** A process that returns before it holds the lock has stored nothing. */
  lemma EarlyReturn(toml: Toml, w: World, p: Process, ok: bool)
    requires EffectOf(toml, w, p, ok).Return? && !HoldsLock(p.phase)
    ensures !Stored(EffectOf(toml, w, p, ok).result.status)
  {
    hide ReadDocument;
  }

  lemma LeaveAccounts(w: World, pid: nat, result: Option<SaveResult>, faulted: bool, other: nat)
    requires LogInv(w) && pid in w.processes && other in w.processes && other != pid
    ensures Accounted(Leave(w, w.processes[pid], result, faulted).log, w.processes[other])
  {
    hide Accounted;
    if HoldsLock(w.processes[pid].phase) {
      AccountedOnward(w.log, SectionOf(w, w.processes[pid], result, faulted), w.processes[other]);
    }
  }

  lemma ReturnAccounts(toml: Toml, w: World, pid: nat, ok: bool)
    requires LogInv(w) && pid in w.processes && pid < w.nextPid && !w.processes[pid].phase.Done?
    requires EffectOf(toml, w, w.processes[pid], ok).Return?
    ensures LogInv(Perform(w, pid, EffectOf(toml, w, w.processes[pid], ok), ok))
  {
    hide EffectOf;
    var p := w.processes[pid];
    var effect := EffectOf(toml, w, p, ok);
    var after := Perform(w, pid, effect, ok);
    if HoldsLock(p.phase) {
      assert after.log == w.log + [SectionOf(w, p, Some(effect.result), !ok)];
      assert IsSectionOf(after.log[|w.log|], after.processes[pid]);
      assert HasSection(after.log, after.processes[pid]);
    } else {
      EarlyReturn(toml, w, p, ok);
      assert after.log == w.log;
    }
    assert Accounted(after.log, after.processes[pid]);
    forall other | other in after.processes && other != pid
      ensures after.processes[other].pid == other && Accounted(after.log, after.processes[other])
    {
      hide Accounted;
      LeaveAccounts(w, pid, Some(effect.result), !ok, other);
    }
  }

  /** The other effects leave the log alone, and no process returns or has returned. */
  lemma OtherEffectsAccount(w: World, pid: nat, effect: Effect, ok: bool)
    requires LogInv(w) && pid in w.processes && !effect.Return?
    requires !effect.Stay? ==> !w.processes[pid].phase.Done?
    requires effect.Move? ==> !effect.phase.Done?
    ensures LogInv(Perform(w, pid, effect, ok))
  {
    hide HasSection, AfterWrite;
  }

  lemma StepAccounts(toml: Toml, w: World, pid: nat, ok: bool)
    requires LogInv(w) && pid in w.processes && ProcessOk(toml, w, pid)
    ensures LogInv(Perform(w, pid, EffectOf(toml, w, w.processes[pid], ok), ok))
  {
    hide EffectOf, ProcessOk, LogInv, Perform, PhaseOk;
    var effect := EffectOf(toml, w, w.processes[pid], ok);
    BelowNext(toml, w, pid);
    EffectIsOk(toml, w, pid, ok);
    if effect.Return? {
      ReturnAccounts(toml, w, pid, ok);
    } else {
      OtherEffectsAccount(w, pid, effect, ok);
    }
  }

  lemma BelowNext(toml: Toml, w: World, pid: nat)
    requires pid in w.processes && ProcessOk(toml, w, pid)
    ensures pid < w.nextPid
  {}

  lemma ActAccounts(toml: Toml, w: World, action: Action)
    requires LogInv(w) && Inv(toml, w)
    ensures LogInv(Act(toml, w, action))
  {
    hide EffectOf, ProcessOk, LockOk, CommitOk, Perform;
    match action {
      case Step(pid, ok) =>
        if pid in w.processes {
          assert ProcessOk(toml, w, pid);
          StepAccounts(toml, w, pid, ok);
        }
      case Kill(pid) =>
        if pid in w.processes {
          assert ProcessOk(toml, w, pid);
          BelowNext(toml, w, pid);
          forall other | other in w.processes && other != pid
            ensures Accounted(Leave(w, w.processes[pid], None, true).log, w.processes[other])
          {
            LeaveAccounts(w, pid, None, true, other);
          }
        }
      case _ =>
    }
  }

  lemma {:induction false} RunAccounts(toml: Toml, w: World, actions: seq<Action>)
    requires Initial(w)
    ensures LogInv(Run(toml, w, actions))
  {
    hide Act;
    if actions != [] {
      RunAccounts(toml, w, actions[..|actions| - 1]);
      RunKeeps(toml, w, actions[..|actions| - 1]);
      ActAccounts(toml, Run(toml, w, actions[..|actions| - 1]), actions[|actions| - 1]);
    }
  }

  /** In every run a call that has returned either has a critical section in the log,
      with just the result it returned, or has had none, stored nothing and changed
      no document. */
  lemma ResultsAreLogged(toml: Toml, w: World, actions: seq<Action>, pid: nat)
    requires Initial(w) && pid in Run(toml, w, actions).processes && Run(toml, w, actions).processes[pid].phase.Done?
    ensures var after := Run(toml, w, actions);
      var p := after.processes[pid];
      || (exists k :: 0 <= k < |after.log| && IsSectionOf(after.log[k], p))
      || (NoSection(after.log, pid) && !Stored(p.phase.result.status) && forall c :: c in after.commits ==> c.pid != pid)
  {
    hide Run, IsSectionOf;
    RunAccounts(toml, w, actions);
    assert Accounted(Run(toml, w, actions).log, Run(toml, w, actions).processes[pid]);
    if !Stored(Run(toml, w, actions).processes[pid].phase.result.status) {
      FailureLeavesTarget(toml, w, actions, pid);
    }
  }

  /** So in every cooperating run what a call without a fault returns from its section
      is its serial answer to what the sections before it left. */
  lemma ResultsAreSerial(toml: Toml, w: World, actions: seq<Action>, pid: nat)
    returns (section: Option<nat>)
    requires Initial(w) && Cooperating(actions) && pid in Run(toml, w, actions).processes
    requires Run(toml, w, actions).processes[pid].phase.Done? && !Run(toml, w, actions).processes[pid].faulted
    ensures var after := Run(toml, w, actions);
      var p := after.processes[pid];
      match section
      case None => !Stored(p.phase.result.status) && forall c :: c in after.commits ==> c.pid != pid
      case Some(k) =>
        && k < |after.log| && IsSectionOf(after.log[k], p)
        && (p.phase.result, after.log[k].after)
           == Intended(toml, p.path, after.log[k].target, p.request, Latest(w.docs, after.log[..k], after.log[k].target))
  {
    hide Run, Intended, Latest;
    ResultsAreLogged(toml, w, actions, pid);
    RunsAreSerial(toml, w, actions);
    var after := Run(toml, w, actions);
    var p := after.processes[pid];
    if k: nat :| k < |after.log| && IsSectionOf(after.log[k], p) {
      section := Some(k);
      assert SectionOk(toml, after.log[k]);
    } else {
      section := None;
    }
  }
}
