/** The commit protocol of `src/document_store.cpp:267-339` as steps of any number
    of processes over one file system, mixed with other programs' writes, link
    changes and process deaths.

    A path leads to its target through `routes`, which stands for `resolveTarget`
    on the present links; module `Resolve` says why commits do not change it. */
module Protocol {
  import opened Bytes
  import opened Documents
  import opened Patch
  import Resolve

  // ---------------------------------------------------------------------------
  // Requests

  datatype Request =
    | Save(edits: seq<Edit>, schema: Schema)
    | Stage(edits: seq<Edit>, schema: Schema)
    | Restore(staged: Revision, previous: Snapshot, schema: Schema)

  const EMPTY: Snapshot := Snapshot(None, MISSING, map[])

  function PrepareRestore(toml: Toml, previous: Snapshot, schema: Schema): SaveResult {
    var parsed := if previous.revision.present then ParseDocument(toml, previous.revision.bytes, previous.path)
                  else Parsed(EMPTY);
    match parsed
    case Rejected(code) => Refused(Invalid, [Failed(code)])
    case Parsed(snapshot) =>
      var notes := DiagnosticsOf(snapshot, schema);
      if HasErrors(notes) then Refused(Invalid, notes) else SaveResult(Success, Some(snapshot), [], notes)
  }

  /** `patchDocument`, or `prepareRestore` for a rollback. */
  ghost function Patched(toml: Toml, request: Request, current: Snapshot): SaveResult {
    match request
    case Restore(_, previous, schema) => PrepareRestore(toml, previous, schema)
    case Save(edits, schema) => PatchOf(toml, current, edits, schema)
    case Stage(edits, schema) => PatchOf(toml, current, edits, schema)
  }

  function Refusal(status: Status): SaveResult {
    Refused(status, [Failed(AtomicWriteError)])
  }

  /** What a request does to the document it read: answer at once, or change it. */
  datatype Decision = Answer(result: SaveResult) | Change(patched: SaveResult, removal: bool)

  ghost function Planned(toml: Toml, request: Request, current: Snapshot): (plan: Decision)
    ensures plan.Change? ==> plan.patched.status == Success && plan.patched.snapshot.Some?
  {
    var patched := Patched(toml, request, current);
    if request.Restore? && current.revision != request.staged then Answer(Refusal(RevisionChanged))
    else if patched.status != Success || patched.snapshot.None? then Answer(patched)
    else if request.Restore? && !request.previous.revision.present then
      if current.revision.present then Change(patched, true) else Answer(patched)
    else if patched.snapshot.value.revision.bytes == current.revision.bytes then
      Answer(patched.(snapshot := Some(current)))
    else Change(patched, false)
  }

  /** The document after a change. */
  function Changed(plan: Decision): Revision
    requires plan.Change? && plan.patched.snapshot.Some?
  {
    if plan.removal then MISSING else plan.patched.snapshot.value.revision
  }

  /** The result names the document by the caller's path. */
  function Placed(result: SaveResult, path: Path): SaveResult {
    match result.snapshot
    case None => result
    case Some(snapshot) => result.(snapshot := Some(snapshot.(path := Some(path))))
  }

  // ---------------------------------------------------------------------------
  // The world

  datatype Doc = Doc(inode: nat, mode: nat, bytes: ByteString)

  function RevisionAt(docs: map<Path, Doc>, target: Path): Revision {
    if target in docs then Revision(true, docs[target].bytes) else MISSING
  }

  /** `readDocument` of a revision found at `target`. */
  function ParseRevision(toml: Toml, revision: Revision, target: Path): ParseResult {
    if revision.present then ParseDocument(toml, revision.bytes, Some(target))
    else Parsed(Snapshot(Some(target), MISSING, map[]))
  }

  function ReadDocument(toml: Toml, docs: map<Path, Doc>, target: Path): ParseResult {
    ParseRevision(toml, RevisionAt(docs, target), target)
  }

  /** A change on its way to the disk; `since` is when its last re-read happened. */
  datatype Work = Work(target: Path, current: Snapshot, plan: Decision, metadata: Option<(nat, nat)>, since: nat)

  datatype Phase =
    | Start
    | Matched(target: Path)
    | Checked(target: Path)
    | Waiting(target: Path)
    | Holding(target: Path)
    | Confirmed(target: Path)
    | Decided(work: Work)
    | Ready(work: Work)
    | Reread(work: Work)
    | Rerouted(work: Work)
    | Verified(work: Work)
    | Replaced(work: Work)
    | Done(result: SaveResult, previous: Option<Snapshot>)

  datatype Process = Process(pid: nat, path: Path, request: Request, phase: Phase, ticket: nat, faulted: bool)

  /** One rename or unlink: the revision the change was computed from, the one that
      was there, the one it left, and whether another program had written since the
      final re-read. */
  datatype Update = Update(pid: nat, target: Path, request: Request, seen: Snapshot, was: Revision, now: Revision, disturbed: bool)

  /** A critical section that has ended, by return or by death. */
  datatype Section = Section(pid: nat, target: Path, path: Path, request: Request, ticket: nat, before: Revision,
                             after: Revision, result: Option<SaveResult>, faulted: bool)

  datatype World = World(
    docs: map<Path, Doc>,
    routes: map<Path, Path>,
    locks: map<Path, nat>,
    processes: map<nat, Process>,
    nextPid: nat,
    nextInode: nat,
    clock: nat,
    touched: map<Path, nat>,
    turned: map<Path, nat>,
    commits: seq<Update>,
    log: seq<Section>)

  predicate HoldsLock(phase: Phase) {
    phase.Holding? || phase.Confirmed? || HasWork(phase)
  }

  predicate HasWork(phase: Phase) {
    phase.Decided? || phase.Ready? || phase.Reread? || phase.Rerouted? || phase.Verified? || phase.Replaced?
  }

  function TargetOf(phase: Phase): Path {
    if HasWork(phase) then phase.work.target
    else if phase.Start? || phase.Done? then []
    else phase.target
  }

  // ---------------------------------------------------------------------------
  // One process step

  datatype Effect =
    | Stay
    | Move(phase: Phase)
    | Acquire(target: Path)
    | Write(work: Work)
    | Return(result: SaveResult, previous: Option<Snapshot>)

  function Fail(status: Status): Effect {
    Return(Refusal(status), None)
  }

  predicate RollbackTargetMatches(target: Path, request: Request) {
    request.Restore? ==>
      request.previous.path.Some? && Resolve.Normal(request.previous.path.value) == target
  }

  predicate LeadsTo(w: World, path: Path, target: Path) {
    path in w.routes && w.routes[path] == target
  }

  /** The snapshot a staging call hands back for rollback. */
  function Previous(request: Request, current: Snapshot): Option<Snapshot> {
    if request.Stage? then Some(current) else None
  }

  ghost function OnConfirmed(toml: Toml, w: World, p: Process, target: Path): Effect {
    match ReadDocument(toml, w.docs, target)
    case Rejected(code) => Return(Refused(Invalid, [Failed(code)]), None)
    case Parsed(current) =>
      match Planned(toml, p.request, current)
      case Answer(result) =>
        Return(result, if result.status == Success then Previous(p.request, current) else None)
      case Change(patched, removal) =>
        Move(Decided(Work(target, current, Change(patched, removal), None, 0)))
  }

  /** Inspect the target's metadata, and prepare the temporary file. */
  function OnDecided(w: World, work: Work): Effect {
    if work.plan.Change? && !work.plan.removal && work.current.revision.present then
      if work.target !in w.docs then Fail(StorageFailure)
      else Move(Ready(work.(metadata := Some((w.docs[work.target].inode, w.docs[work.target].mode)))))
    else Move(Ready(work))
  }

  function OnReady(w: World, work: Work): Effect {
    if RevisionAt(w.docs, work.target) != work.current.revision then Fail(RevisionChanged)
    else Move(Reread(work.(since := w.clock)))
  }

  function OnRerouted(w: World, work: Work): Effect {
    if work.metadata.Some? &&
       (work.target !in w.docs || (w.docs[work.target].inode, w.docs[work.target].mode) != work.metadata.value)
    then Fail(RevisionChanged)
    else Move(Verified(work))
  }

  function OnVerified(w: World, work: Work): Effect {
    if work.plan.Change? && work.plan.removal && work.target !in w.docs then Fail(StorageFailure) else Write(work)
  }

  /** A failing system call; a change without metadata makes none when metadata is checked. */
  function OnFault(p: Process): Effect {
    match p.phase
    case Start => Fail(StorageFailure)
    case Matched(_) => Fail(StorageFailure)
    case Checked(_) => Fail(StorageFailure)
    case Waiting(_) => Fail(StorageFailure)
    case Holding(_) => Fail(RevisionChanged)
    case Confirmed(_) => Fail(StorageFailure)
    case Decided(_) => Fail(StorageFailure)
    case Ready(_) => Fail(RevisionChanged)
    case Reread(_) => Fail(RevisionChanged)
    case Rerouted(work) => if work.metadata.Some? then Fail(RevisionChanged) else Move(Verified(work))
    case Verified(_) => Fail(StorageFailure)
    case Replaced(work) => Return(Durable(work, p.path, DurabilityFailure), Previous(p.request, work.current))
    case Done(_, _) => Stay
  }

  /** The answer when the last sync fails: an error, with the document that is live. */
  function Undurable(answer: SaveResult): SaveResult {
    SaveResult(DurabilityFailure, answer.snapshot, [], [Failed(AtomicWriteError)])
  }

  function Durable(work: Work, path: Path, status: Status): SaveResult {
    if work.plan.Answer? then Refusal(status)
    else if status == DurabilityFailure then Undurable(Placed(work.plan.patched, path))
    else Placed(work.plan.patched, path).(status := status)
  }

  ghost function OnSuccess(toml: Toml, w: World, p: Process): Effect {
    match p.phase
    case Start =>
      if p.path !in w.routes then Fail(StorageFailure)
      else if !RollbackTargetMatches(w.routes[p.path], p.request) then Fail(RevisionChanged)
      else Move(Matched(w.routes[p.path]))
    case Matched(target) =>
      (match ReadDocument(toml, w.docs, target)
       case Rejected(code) => Return(Refused(Invalid, [Failed(code)]), None)
       case Parsed(_) => Move(Checked(target)))
    case Checked(target) => Move(Waiting(target))
    case Waiting(target) => if target in w.locks then Stay else Acquire(target)
    case Holding(target) => if LeadsTo(w, p.path, target) then Move(Confirmed(target)) else Fail(RevisionChanged)
    case Confirmed(target) => OnConfirmed(toml, w, p, target)
    case Decided(work) => OnDecided(w, work)
    case Ready(work) => OnReady(w, work)
    case Reread(work) => if LeadsTo(w, p.path, work.target) then Move(Rerouted(work)) else Fail(RevisionChanged)
    case Rerouted(work) => OnRerouted(w, work)
    case Verified(work) => OnVerified(w, work)
    case Replaced(work) => Return(Durable(work, p.path, Success), Previous(p.request, work.current))
    case Done(_, _) => Stay
  }

  ghost function EffectOf(toml: Toml, w: World, p: Process, ok: bool): Effect {
    if ok then OnSuccess(toml, w, p) else OnFault(p)
  }

  // ---------------------------------------------------------------------------
  // Performing a step

  const NEW_MODE: nat := 384

  function NewDoc(w: World, work: Work, bytes: ByteString): Doc {
    Doc(w.nextInode, if work.metadata.Some? then work.metadata.value.1 % 4096 else NEW_MODE, bytes)
  }

  function AfterWrite(w: World, work: Work): map<Path, Doc> {
    if work.plan.Change? && work.plan.patched.snapshot.Some? then
      var now := Changed(work.plan);
      if now.present then w.docs[work.target := NewDoc(w, work, now.bytes)] else w.docs - {work.target}
    else w.docs
  }

  predicate TouchedSince(w: World, target: Path, since: nat) {
    target in w.touched && w.touched[target] >= since
  }

  function SectionOf(w: World, p: Process, result: Option<SaveResult>, faulted: bool): Section {
    var target := TargetOf(p.phase);
    var after := RevisionAt(w.docs, target);
    Section(p.pid, target, p.path, p.request, p.ticket,
            if p.phase.Replaced? then p.phase.work.current.revision else after, after, result, faulted)
  }

  /** The process leaves its critical section, if it is in one. */
  function Leave(w: World, p: Process, result: Option<SaveResult>, faulted: bool): World {
    if HoldsLock(p.phase)
    then w.(locks := w.locks - {TargetOf(p.phase)}, log := w.log + [SectionOf(w, p, result, faulted)])
    else w
  }

  function Perform(w: World, pid: nat, effect: Effect, ok: bool): World
    requires pid in w.processes
  {
    var p := w.processes[pid];
    match effect
    case Stay => w
    case Move(phase) => w.(processes := w.processes[pid := p.(phase := phase)])
    case Acquire(target) =>
      w.(processes := w.processes[pid := p.(phase := Holding(target), ticket := w.clock)],
         locks := w.locks[target := pid])
    case Write(work) =>
      w.(processes := w.processes[pid := p.(phase := Replaced(work))],
         docs := AfterWrite(w, work),
         nextInode := w.nextInode + 1,
         commits := w.commits + [Update(pid, work.target, p.request, work.current, RevisionAt(w.docs, work.target),
                                        RevisionAt(AfterWrite(w, work), work.target),
                                        TouchedSince(w, work.target, work.since))])
    case Return(result, previous) =>
      Leave(w, p, Some(result), !ok).(processes := w.processes[pid := p.(phase := Done(result, previous), faulted := !ok)])
  }

  /** A process step, a new process, a death, or what other programs do: writing or
      removing a document, and leading a path elsewhere. */
  datatype Action =
    | Step(pid: nat, ok: bool)
    | Spawn(path: Path, request: Request)
    | Kill(pid: nat)
    | Overwrite(target: Path, doc: Option<Doc>)
    | Retarget(path: Path, route: Option<Path>)

  ghost function Act(toml: Toml, w: World, action: Action): World {
    var after := match action
      case Step(pid, ok) =>
        if pid in w.processes then Perform(w, pid, EffectOf(toml, w, w.processes[pid], ok), ok) else w
      case Spawn(path, request) =>
        w.(processes := w.processes[w.nextPid := Process(w.nextPid, path, request, Start, 0, false)], nextPid := w.nextPid + 1)
      case Kill(pid) =>
        if pid in w.processes
        then Leave(w, w.processes[pid], None, true).(processes := w.processes - {pid})
        else w
      case Overwrite(target, doc) =>
        w.(docs := if doc.Some? then w.docs[target := doc.value] else w.docs - {target},
           touched := w.touched[target := w.clock])
      case Retarget(path, route) =>
        w.(routes := if route.Some? then w.routes[path := route.value] else w.routes - {path},
           turned := w.turned[path := w.clock]);
    after.(clock := w.clock + 1)
  }

  ghost function Run(toml: Toml, w: World, actions: seq<Action>): World {
    if actions == [] then w
    else Act(toml, Run(toml, w, actions[..|actions| - 1]), actions[|actions| - 1])
  }

  /** Nobody is running yet. */
  predicate Initial(w: World) {
    w.locks == map[] && w.processes == map[] && w.touched == map[] && w.turned == map[] && w.commits == [] && w.log == []
  }
}
