/** Runs made only of appearance saves and staging calls
    (`src/appearance_document.cpp:148-184`): each adds the reserved version edit,
    whose baseline it read before taking the lock. */
module AppearanceRuns {
  import opened Bytes
  import opened Documents
  import opened Patch
  import opened Protocol
  import opened ProtocolSafety
  import opened ProtocolSerial
  import Appearance
  import Fragment
  import FragmentLiterals
  import PatchProperties

  const VERSION_KEY: KeyPath := [Appearance.VERSION]

  const TWO: Option<Value> := Some(Integer(Appearance.EDITING_VERSION))

  /** The version of the document at `target`, `None` when it is missing. */
  function VersionAt(toml: Toml, docs: map<Path, Doc>, target: Path): Option<Value> {
    VersionIn(toml, RevisionAt(docs, target), target)
  }

  function VersionIn(toml: Toml, revision: Revision, target: Path): Option<Value> {
    match ParseRevision(toml, revision, target)
    case Rejected(_) => None
    case Parsed(snapshot) => snapshot.ValueAt(VERSION_KEY)
  }

  /** The caller's edits, which may not touch the version, and the version edit. */
  ghost predicate AppearanceRequest(request: Request) {
    && !request.Restore? && request.edits != []
    && request.edits[|request.edits| - 1].key == VERSION_KEY
    && request.edits[|request.edits| - 1].pending == TWO
    && forall i :: 0 <= i < |request.edits| - 1 ==> request.edits[i].key != VERSION_KEY
  }

  function BaselineOf(request: Request): Option<Value>
    requires !request.Restore? && request.edits != []
  {
    request.edits[|request.edits| - 1].baseline
  }

  /** The document can be decoded as far as its version goes: it is missing, or has
      version 1 or 2. Appearance calls refuse every other one. */
  predicate Decodable(toml: Toml, revision: Revision, target: Path) {
    var version := VersionIn(toml, revision, target);
    !revision.present || version == Some(Integer(Appearance.DOCUMENT_VERSION)) || version == TWO
  }

  predicate DecodableAt(toml: Toml, docs: map<Path, Doc>, target: Path) {
    Decodable(toml, RevisionAt(docs, target), target)
  }

  /** The request's baseline is the version of a decodable document it read at its
      target at some earlier time of the run. */
  ghost predicate ReadEarlier(toml: Toml, w: World, actions: seq<Action>, path: Path, request: Request)
    requires AppearanceRequest(request)
  {
    && path in w.routes
    && exists j :: 0 <= j <= |actions| && ReadAt(toml, Run(toml, w, actions[..j]).docs, w.routes[path], BaselineOf(request))
  }

  predicate ReadAt(toml: Toml, docs: map<Path, Doc>, target: Path, baseline: Option<Value>) {
    DecodableAt(toml, docs, target) && baseline == VersionAt(toml, docs, target)
  }

  /** Only appearance calls, each with a version it has read. */
  ghost predicate AppearanceRun(toml: Toml, w: World, actions: seq<Action>) {
    && Initial(w) && Cooperating(actions)
    && forall k :: 0 <= k < |actions| && actions[k].Spawn? ==>
         && AppearanceRequest(actions[k].request)
         && ReadEarlier(toml, w, actions[..k], actions[k].path, actions[k].request)
  }

  /** The parser reads the version literal back. */
  ghost predicate ReadsTwoBack(toml: Toml) {
    forall baseline :: NormalizeOne(toml, Edit(VERSION_KEY, baseline, TWO)) == Some(Edit(VERSION_KEY, baseline, TWO))
  }

  // ---------------------------------------------------------------------------
  // One request

  /** A request that reads version `TWO`, or just the version it has as baseline,
      has no version conflict. */
  lemma NoVersionConflict(toml: Toml, request: Request, current: Snapshot, c: Conflict)
    requires ReadsTwoBack(toml) && AppearanceRequest(request)
    requires current.ValueAt(VERSION_KEY) == TWO
      || (current.ValueAt(VERSION_KEY) == BaselineOf(request)
          && (BaselineOf(request).None? || BaselineOf(request).value.Integer?))
    requires Planned(toml, request, current).Answer? && c in Planned(toml, request, current).result.conflicts
    ensures Planned(toml, request, current).result.status == Conflicted ==> c.key != VERSION_KEY
  {
    hide PatchOf, Normalize, PlanAll, Conflicting;
    if Planned(toml, request, current).result.status == Conflicted {
      var edits, schema := request.edits, request.schema;
      ConflictParts(toml, current, edits, schema);
      var batch := Normalize(toml, edits).value;
      var i :| 0 <= i < |batch| && Conflicting(current, batch[i]) && c.key == batch[i].key;
      NormalizedVersion(toml, edits, i);
      if batch[i].key == VERSION_KEY {
        VersionEditFits(current, batch[i]);
      }
    }
  }

  lemma ConflictParts(toml: Toml, current: Snapshot, edits: seq<Edit>, schema: Schema)
    requires PatchOf(toml, current, edits, schema).status == Conflicted
    ensures Normalize(toml, edits).Some?
    ensures forall c :: c in PatchOf(toml, current, edits, schema).conflicts ==>
      var batch := Normalize(toml, edits).value;
      exists i :: 0 <= i < |batch| && Conflicting(current, batch[i]) && c.key == batch[i].key
  {
    hide Normalize, PlanAll, Patch.Apply, DiagnosticsOf, DocumentHolds;
    ValidityIsFieldwise(current, schema);
    PatchProperties.PatchVerdict(toml, current, edits, schema);
  }

  lemma NormalizedVersion(toml: Toml, edits: seq<Edit>, i: nat)
    requires Normalize(toml, edits).Some? && i < |edits| && ReadsTwoBack(toml)
    ensures Normalize(toml, edits).value[i].key == edits[i].key
    ensures Normalize(toml, edits).value[i].baseline == edits[i].baseline
    ensures edits[i].key == VERSION_KEY && edits[i].pending == TWO ==> Normalize(toml, edits).value[i] == edits[i]
  {
    var batch := Normalize(toml, edits).value;
    assert NormalizeOne(toml, edits[i]) == Some(batch[i]);
    if edits[i].key == VERSION_KEY && edits[i].pending == TWO {
      assert edits[i] == Edit(VERSION_KEY, edits[i].baseline, TWO);
    }
  }

  lemma VersionEditFits(current: Snapshot, edit: Edit)
    requires edit.key == VERSION_KEY && edit.pending == TWO
    requires current.ValueAt(VERSION_KEY) == TWO
      || (current.ValueAt(VERSION_KEY) == edit.baseline && (edit.baseline.None? || edit.baseline.value.Integer?))
    ensures !Conflicting(current, edit)
  {}

  /** A change by an appearance request leaves version `TWO`. */
  lemma ChangeUpgrades(toml: Toml, request: Request, current: Snapshot, target: Path)
    requires ReadsTwoBack(toml) && AppearanceRequest(request)
    requires Planned(toml, request, current).Change? && current.path == Some(target)
    ensures VersionIn(toml, Changed(Planned(toml, request, current)), target) == TWO
  {
    hide PatchOf, Normalize, PlanAll;
    var edits, schema := request.edits, request.schema;
    PatchProperties.SuccessMeansSeenAndRealised(toml, current, edits, schema);
    var snapshot := PatchOf(toml, current, edits, schema).snapshot.value;
    var last := |edits| - 1;
    NormalizedVersion(toml, edits, last);
    assert Same(snapshot.ValueAt(VERSION_KEY), Normalize(toml, edits).value[last].pending);
    ParsedIsPresent(toml, snapshot);
    SamePathSameValues(toml, snapshot, target);
  }

  // ---------------------------------------------------------------------------
  // The invariant of appearance runs

  /** The document at a target is still the first one, or that could be decoded and
      the version now is `TWO`. */
  ghost predicate FirstOrTwo(toml: Toml, first: map<Path, Doc>, docs: map<Path, Doc>, target: Path) {
    || RevisionAt(docs, target) == RevisionAt(first, target)
    || (DecodableAt(toml, first, target) && VersionAt(toml, docs, target) == TWO)
  }

  /** A request's baseline is the first version, or `TWO` once that is on disk. */
  ghost predicate BaselineOk(toml: Toml, first: map<Path, Doc>, w: World, path: Path, request: Request) {
    && AppearanceRequest(request) && path in w.routes && DecodableAt(toml, first, w.routes[path])
    && (BaselineOf(request) == VersionAt(toml, first, w.routes[path])
        || (BaselineOf(request) == TWO && VersionAt(toml, w.docs, w.routes[path]) == TWO))
  }

  predicate NoVersionConflictIn(phase: Phase) {
    phase.Done? && phase.result.status == Conflicted ==>
      forall c :: c in phase.result.conflicts ==> c.key != VERSION_KEY
  }

  ghost predicate AppearanceInv(toml: Toml, first: map<Path, Doc>, w: World) {
    && (forall target :: FirstOrTwo(toml, first, w.docs, target))
    && (forall c :: c in w.commits ==> VersionAt(toml, w.docs, c.target) == TWO)
    && (forall pid :: pid in w.processes ==>
         && BaselineOk(toml, first, w, w.processes[pid].path, w.processes[pid].request)
         && NoVersionConflictIn(w.processes[pid].phase))
  }

  /** Documents stay as they are, or go from a decodable one to version `TWO`. */
  ghost predicate OnlyUpgraded(toml: Toml, before: map<Path, Doc>, after: map<Path, Doc>) {
    forall target :: UpgradedAt(toml, before, after, target)
  }

  ghost predicate UpgradedAt(toml: Toml, before: map<Path, Doc>, after: map<Path, Doc>, target: Path) {
    || RevisionAt(after, target) == RevisionAt(before, target)
    || (DecodableAt(toml, before, target) && VersionAt(toml, after, target) == TWO)
  }

  lemma WriteUpgrades(toml: Toml, w: World, request: Request, work: Work)
    requires ReadsTwoBack(toml) && AppearanceRequest(request) && WorkOk(toml, request, work)
    requires DecodableAt(toml, w.docs, work.target)
    ensures VersionAt(toml, AfterWrite(w, work), work.target) == TWO
    ensures OnlyUpgraded(toml, w.docs, AfterWrite(w, work))
  {
    hide Planned, AfterWrite, ReadsTwoBack, AppearanceRequest, VersionIn, Decodable, RevisionAt;
    WriteIsJustified(toml, w, request, work);
    ReadPath(toml, work);
    ChangeUpgrades(toml, request, work.current, work.target);
    forall target ensures UpgradedAt(toml, w.docs, AfterWrite(w, work), target) {
      if target != work.target {
        OtherTargets(w, work, target);
      }
    }
  }

  /** A request is only made for documents that still can be decoded. */
  lemma TargetIsDecodable(toml: Toml, first: map<Path, Doc>, w: World, path: Path, request: Request)
    requires BaselineOk(toml, first, w, path, request) && FirstOrTwo(toml, first, w.docs, w.routes[path])
    ensures DecodableAt(toml, w.docs, w.routes[path])
  {
    hide VersionIn, AppearanceRequest;
  }

  lemma ReadPath(toml: Toml, work: Work)
    requires ParseRevision(toml, work.current.revision, work.target) == Parsed(work.current)
    ensures work.current.path == Some(work.target)
  {}

  /** What a step's effect is worth to an appearance run. */
  ghost predicate EffectFits(toml: Toml, w: World, p: Process, effect: Effect) {
    && (effect.Return? ==> NoVersionConflictIn(Done(effect.result, effect.previous)))
    && (effect.Move? ==> !effect.phase.Done?)
  }

  lemma ConfirmedFits(toml: Toml, first: map<Path, Doc>, w: World, p: Process, target: Path)
    requires ReadsTwoBack(toml) && BaselineOk(toml, first, w, p.path, p.request)
    requires FirstOrTwo(toml, first, w.docs, target) && LeadsTo(w, p.path, target)
    ensures EffectFits(toml, w, p, OnConfirmed(toml, w, p, target))
  {
    hide Planned, ReadsTwoBack, AppearanceRequest;
    var read := ReadDocument(toml, w.docs, target);
    if read.Parsed? {
      var plan := Planned(toml, p.request, read.snapshot);
      if plan.Answer? {
        forall c | c in plan.result.conflicts ensures plan.result.status == Conflicted ==> c.key != VERSION_KEY {
          NoVersionConflict(toml, p.request, read.snapshot, c);
        }
      }
    }
  }

  lemma StepFits(toml: Toml, first: map<Path, Doc>, w: World, pid: nat, ok: bool)
    requires ReadsTwoBack(toml) && pid in w.processes && AppearanceInv(toml, first, w)
    requires PathHolds(w, w.processes[pid].path, w.processes[pid].phase) && ProcessOk(toml, w, pid)
    ensures EffectFits(toml, w, w.processes[pid], EffectOf(toml, w, w.processes[pid], ok))
  {
    hide Planned, ReadsTwoBack, AppearanceRequest, OnConfirmed, BaselineOk, VersionAt;
    var p := w.processes[pid];
    if ok && p.phase.Confirmed? {
      ConfirmedFits(toml, first, w, p, p.phase.target);
    } else if p.phase.Replaced? {
      PlacedStatus(p.phase.work, p.path);
    }
  }

  lemma PlacedStatus(work: Work, path: Path)
    ensures forall status :: Durable(work, path, status).status == status
  {}

  lemma PerformFits(toml: Toml, first: map<Path, Doc>, w: World, pid: nat, effect: Effect, ok: bool)
    requires ReadsTwoBack(toml) && pid in w.processes && AppearanceInv(toml, first, w)
    requires Inv(toml, w) && EffectOk(toml, w, w.processes[pid], effect) && EffectFits(toml, w, w.processes[pid], effect)
    requires PathHolds(w, w.processes[pid].path, w.processes[pid].phase)
    ensures AppearanceInv(toml, first, Perform(w, pid, effect, ok))
    ensures OnlyUpgraded(toml, w.docs, Perform(w, pid, effect, ok).docs)
  {
    hide ReadsTwoBack, AppearanceRequest, VersionAt, AfterWrite, Leave, WorkOk, Justified, Unchanged, BaselineOk,
      AppearanceInv, OnlyUpgraded, Inv;
    var p := w.processes[pid];
    var after := Perform(w, pid, effect, ok);
    if effect.Write? {
      InvHolds(toml, first, w, pid);
      TargetIsDecodable(toml, first, w, p.path, p.request);
      WriteUpgrades(toml, w, p.request, effect.work);
    } else {
      LeaveKeepsDocs(w, p, if effect.Return? then Some(effect.result) else None, !ok);
      NothingUpgraded(toml, w.docs);
    }
    forall other | other in after.processes
      ensures other in w.processes && after.processes[other].path == w.processes[other].path
        && after.processes[other].request == w.processes[other].request && NoVersionConflictIn(after.processes[other].phase)
    {
      InvHolds(toml, first, w, other);
    }
    AppearanceKept(toml, first, w, after);
  }

  lemma InvHolds(toml: Toml, first: map<Path, Doc>, w: World, pid: nat)
    requires AppearanceInv(toml, first, w) && Inv(toml, w) && pid in w.processes
    ensures ProcessOk(toml, w, pid) && NoVersionConflictIn(w.processes[pid].phase)
    ensures AppearanceRequest(w.processes[pid].request)
    ensures BaselineOk(toml, first, w, w.processes[pid].path, w.processes[pid].request)
    ensures FirstOrTwo(toml, first, w.docs, w.routes[w.processes[pid].path])
  {
    hide WorkOk, Unchanged, VersionAt;
  }

  lemma NothingUpgraded(toml: Toml, docs: map<Path, Doc>)
    ensures OnlyUpgraded(toml, docs, docs)
  {}

  lemma AppearanceKept(toml: Toml, first: map<Path, Doc>, w: World, after: World)
    requires AppearanceInv(toml, first, w) && OnlyUpgraded(toml, w.docs, after.docs) && after.routes == w.routes
    requires forall other :: other in after.processes ==>
      && other in w.processes && after.processes[other].path == w.processes[other].path
      && after.processes[other].request == w.processes[other].request
      && NoVersionConflictIn(after.processes[other].phase)
    requires forall c :: c in after.commits ==> c in w.commits || VersionAt(toml, after.docs, c.target) == TWO
    ensures AppearanceInv(toml, first, after)
  {
    hide VersionIn, Decodable, NoVersionConflictIn, AppearanceRequest, BaselineOk;
    forall target ensures FirstOrTwo(toml, first, after.docs, target) {
      assert FirstOrTwo(toml, first, w.docs, target) && UpgradedAt(toml, w.docs, after.docs, target);
    }
    forall c | c in after.commits ensures VersionAt(toml, after.docs, c.target) == TWO {
      assert c in w.commits ==> VersionAt(toml, w.docs, c.target) == TWO;
      assert UpgradedAt(toml, w.docs, after.docs, c.target);
    }
    forall other | other in after.processes
      ensures BaselineOk(toml, first, after, after.processes[other].path, after.processes[other].request)
    {
      BaselineKept(toml, first, w, after, w.processes[other].path, w.processes[other].request);
    }
  }

  lemma BaselineKept(toml: Toml, first: map<Path, Doc>, w: World, after: World, path: Path, request: Request)
    requires BaselineOk(toml, first, w, path, request) && after.routes == w.routes && OnlyUpgraded(toml, w.docs, after.docs)
    ensures BaselineOk(toml, first, after, path, request)
  {
    hide VersionIn, Decodable;
    assert UpgradedAt(toml, w.docs, after.docs, w.routes[path]);
  }

  lemma LeaveKeepsDocs(w: World, p: Process, result: Option<SaveResult>, faulted: bool)
    ensures var after := Leave(w, p, result, faulted);
      after.docs == w.docs && after.commits == w.commits && after.routes == w.routes && after.processes == w.processes
  {}

  /** A new process and a death, and the clock, leave everything else as it is. */
  lemma QuietFits(toml: Toml, first: map<Path, Doc>, w: World, after: World)
    requires AppearanceInv(toml, first, w)
    requires after.docs == w.docs && after.routes == w.routes && after.commits == w.commits
    requires forall pid :: pid in after.processes ==>
      || (pid in w.processes && after.processes[pid] == w.processes[pid])
      || (after.processes[pid].phase == Start
          && BaselineOk(toml, first, w, after.processes[pid].path, after.processes[pid].request))
    ensures AppearanceInv(toml, first, after)
  {
    hide VersionAt, AppearanceRequest, DecodableAt, FirstOrTwo;
  }

  lemma StepActFits(toml: Toml, first: map<Path, Doc>, routes: map<Path, Path>, w: World, pid: nat, ok: bool)
    requires ReadsTwoBack(toml) && AppearanceInv(toml, first, w) && Inv(toml, w) && SerialInv(toml, first, routes, w)
    requires pid in w.processes
    ensures var after := Perform(w, pid, EffectOf(toml, w, w.processes[pid], ok), ok);
      AppearanceInv(toml, first, after) && OnlyUpgraded(toml, w.docs, after.docs)
  {
    hide ReadsTwoBack, AppearanceRequest, VersionAt, Perform, Leave, EffectOf, EffectOk, EffectFits, ProcessOk, LockOk,
      CommitOk, SerialLog, Latest, Undisturbed, InOrder, ResultOk, PathHolds, AppearanceInv, OnlyUpgraded;
    assert SerialProcess(first, w, w.processes[pid]);
    EffectIsOk(toml, w, pid, ok);
    StepFits(toml, first, w, pid, ok);
    PerformFits(toml, first, w, pid, EffectOf(toml, w, w.processes[pid], ok), ok);
  }

  lemma ActFits(toml: Toml, first: map<Path, Doc>, routes: map<Path, Path>, w: World, action: Action)
    requires ReadsTwoBack(toml) && AppearanceInv(toml, first, w) && Inv(toml, w) && SerialInv(toml, first, routes, w)
    requires action.Step? || action.Kill? || (action.Spawn? && BaselineOk(toml, first, w, action.path, action.request))
    ensures AppearanceInv(toml, first, Act(toml, w, action))
    ensures OnlyUpgraded(toml, w.docs, Act(toml, w, action).docs)
  {
    hide ReadsTwoBack, Perform, Leave, EffectOf, AppearanceInv, OnlyUpgraded, Inv, SerialInv, BaselineOk;
    NothingUpgraded(toml, w.docs);
    match action {
      case Step(pid, ok) =>
        if pid in w.processes {
          StepActFits(toml, first, routes, w, pid, ok);
          QuietFits(toml, first, Perform(w, pid, EffectOf(toml, w, w.processes[pid], ok), ok), Act(toml, w, action));
        } else {
          QuietFits(toml, first, w, Act(toml, w, action));
        }
      case Spawn(_, _) => QuietFits(toml, first, w, Act(toml, w, action));
      case Kill(pid) =>
        if pid in w.processes {
          LeaveKeepsDocs(w, w.processes[pid], None, true);
        }
        QuietFits(toml, first, w, Act(toml, w, action));
    }
  }

  lemma {:induction false} AppearanceRunKeeps(toml: Toml, w: World, actions: seq<Action>)
    requires ReadsTwoBack(toml) && AppearanceRun(toml, w, actions)
    ensures AppearanceInv(toml, w.docs, Run(toml, w, actions))
    decreases |actions|, 1
  {
    hide Act, ReadsTwoBack, AppearanceInv, ReadEarlier, AppearanceRequest;
    if actions == [] {
      InitialFits(toml, w);
    } else {
      var last := |actions| - 1;
      var front := actions[..last];
      FrontRuns(toml, w, actions, last);
      AppearanceRunKeeps(toml, w, front);
      RunKeeps(toml, w, front);
      SerialRun(toml, w, front);
      if actions[last].Spawn? {
        SpawnFits(toml, w, front, actions[last].path, actions[last].request);
      }
      ActFits(toml, w.docs, w.routes, Run(toml, w, front), actions[last]);
    }
  }

  lemma InitialFits(toml: Toml, w: World)
    requires Initial(w)
    ensures AppearanceInv(toml, w.docs, w)
  {}

  lemma FrontRuns(toml: Toml, w: World, actions: seq<Action>, k: nat)
    requires AppearanceRun(toml, w, actions) && k <= |actions|
    ensures AppearanceRun(toml, w, actions[..k])
    ensures k < |actions| && actions[k].Spawn? ==>
      && AppearanceRequest(actions[k].request)
      && ReadEarlier(toml, w, actions[..k], actions[k].path, actions[k].request)
    ensures k < |actions| ==> actions[k].Step? || actions[k].Spawn? || actions[k].Kill?
  {
    hide ReadEarlier, AppearanceRequest;
    var front := actions[..k];
    forall i | 0 <= i < |front| && front[i].Spawn?
      ensures AppearanceRequest(front[i].request) && ReadEarlier(toml, w, front[..i], front[i].path, front[i].request)
    {
      assert front[..i] == actions[..i];
    }
  }

  /** What was read at any earlier time still is the first version, or `TWO` is on disk. */
  lemma SpawnFits(toml: Toml, w: World, actions: seq<Action>, path: Path, request: Request)
    requires ReadsTwoBack(toml) && AppearanceRun(toml, w, actions)
    requires AppearanceRequest(request) && ReadEarlier(toml, w, actions, path, request)
    ensures BaselineOk(toml, w.docs, Run(toml, w, actions), path, request)
    decreases |actions|, 2
  {
    hide Run, ReadsTwoBack, AppearanceRun, VersionIn, Decodable, SerialInv;
    var target := w.routes[path];
    var j :| 0 <= j <= |actions| && ReadAt(toml, Run(toml, w, actions[..j]).docs, target, BaselineOf(request));
    FrontRuns(toml, w, actions, j);
    AppearanceRunKeeps(toml, w, actions[..j]);
    assert FirstOrTwo(toml, w.docs, Run(toml, w, actions[..j]).docs, target);
    VersionsOnlyRise(toml, w, actions, j);
    assert UpgradedAt(toml, Run(toml, w, actions[..j]).docs, Run(toml, w, actions).docs, target);
    RoutesKept(toml, w, actions);
  }

  lemma RoutesKept(toml: Toml, w: World, actions: seq<Action>)
    requires AppearanceRun(toml, w, actions)
    ensures Run(toml, w, actions).routes == w.routes
  {
    hide Run, SerialProcess, SerialLog, Latest;
    SerialRun(toml, w, actions);
  }

  lemma {:induction false} VersionsOnlyRise(toml: Toml, w: World, actions: seq<Action>, j: nat)
    requires ReadsTwoBack(toml) && AppearanceRun(toml, w, actions) && j <= |actions|
    ensures OnlyUpgraded(toml, Run(toml, w, actions[..j]).docs, Run(toml, w, actions).docs)
    decreases |actions|, 0
  {
    hide Act, ReadsTwoBack, AppearanceInv, VersionAt, AppearanceRequest, ReadEarlier;
    var last := |actions| - 1;
    if j == |actions| {
      assert actions[..j] == actions;
    } else {
      var front := actions[..last];
      FrontRuns(toml, w, actions, last);
      assert front[..j] == actions[..j];
      VersionsOnlyRise(toml, w, front, j);
      var before, between := Run(toml, w, actions[..j]).docs, Run(toml, w, front).docs;
      AppearanceRunKeeps(toml, w, front);
      RunKeeps(toml, w, front);
      SerialRun(toml, w, front);
      if actions[last].Spawn? {
        SpawnFits(toml, w, front, actions[last].path, actions[last].request);
      }
      ActFits(toml, w.docs, w.routes, Run(toml, w, front), actions[last]);
      UpgradedOnward(toml, before, between, Run(toml, w, actions).docs);
    }
  }

  lemma UpgradedOnward(toml: Toml, a: map<Path, Doc>, b: map<Path, Doc>, c: map<Path, Doc>)
    requires OnlyUpgraded(toml, a, b) && OnlyUpgraded(toml, b, c)
    ensures OnlyUpgraded(toml, a, c)
  {
    hide VersionIn, Decodable, RevisionAt;
    forall target ensures UpgradedAt(toml, a, c, target) {
      assert UpgradedAt(toml, a, b, target) && UpgradedAt(toml, b, c, target);
    }
  }

  // ---------------------------------------------------------------------------
  // Every appearance run

  /** In every run made only of appearance saves and staging calls, no call ever
      reports a conflict on the version, although its version was read before the
      lock. */
  lemma VersionNeverConflicts(toml: Toml, w: World, actions: seq<Action>, pid: nat, c: Conflict)
    requires ReadsTwoBack(toml) && AppearanceRun(toml, w, actions) && pid in Run(toml, w, actions).processes
    requires var phase := Run(toml, w, actions).processes[pid].phase;
      phase.Done? && phase.result.status == Conflicted && c in phase.result.conflicts
    ensures c.key != VERSION_KEY
  {
    hide Run, ReadsTwoBack, AppearanceRun, BaselineOk;
    AppearanceRunKeeps(toml, w, actions);
  }

  /** Concurrent upgrades converge: a document any call has changed has version 2. */
  lemma UpgradesConverge(toml: Toml, w: World, actions: seq<Action>, c: Update)
    requires ReadsTwoBack(toml) && AppearanceRun(toml, w, actions) && c in Run(toml, w, actions).commits
    ensures VersionAt(toml, Run(toml, w, actions).docs, c.target) == TWO
  {
    hide Run, ReadsTwoBack, AppearanceRun, BaselineOk;
    AppearanceRunKeeps(toml, w, actions);
  }

  /** Versions in order of age; anything but an integer comes first. */
  function Rank(version: Option<Value>): int {
    match version
    case Some(Integer(n)) => n
    case _ => 0
  }

  /** The version on disk never decreases, whatever it was. */
  lemma VersionNeverDecreases(toml: Toml, w: World, actions: seq<Action>, j: nat, target: Path)
    requires ReadsTwoBack(toml) && AppearanceRun(toml, w, actions) && j <= |actions|
    ensures Rank(VersionAt(toml, Run(toml, w, actions[..j]).docs, target))
         <= Rank(VersionAt(toml, Run(toml, w, actions).docs, target))
  {
    hide Run, ReadsTwoBack, AppearanceRun, BaselineOk;
    VersionsOnlyRise(toml, w, actions, j);
    assert UpgradedAt(toml, Run(toml, w, actions[..j]).docs, Run(toml, w, actions).docs, target);
  }

  /** A document of any other version, or of none, is never changed, byte for byte;
      and any document stays as it is until it has version 2. */
  lemma OtherVersionsAreKept(toml: Toml, w: World, actions: seq<Action>, target: Path)
    requires ReadsTwoBack(toml) && AppearanceRun(toml, w, actions)
    ensures !DecodableAt(toml, w.docs, target) ==>
      RevisionAt(Run(toml, w, actions).docs, target) == RevisionAt(w.docs, target)
    ensures VersionAt(toml, Run(toml, w, actions).docs, target) != TWO ==>
      RevisionAt(Run(toml, w, actions).docs, target) == RevisionAt(w.docs, target)
  {
    hide Run, ReadsTwoBack, AppearanceRun, BaselineOk, Decodable, VersionIn, RevisionAt;
    AppearanceRunKeeps(toml, w, actions);
    assert FirstOrTwo(toml, w.docs, Run(toml, w, actions).docs, target);
  }

  /** The concrete fragment reads the version literal back. */
  lemma FragmentReadsTwoBack()
    ensures ReadsTwoBack(Fragment.TOML)
  {
    forall baseline: Option<Value>
      ensures NormalizeOne(Fragment.TOML, Edit(VERSION_KEY, baseline, TWO)) == Some(Edit(VERSION_KEY, baseline, TWO))
    {
      FragmentLiterals.NormalizesLiteral(Edit(VERSION_KEY, baseline, TWO));
    }
  }
}
