/** `updateDocument` (`src/document_store.cpp:267-339`) as one call: resolve, lock,
    read, patch or prepare the rollback, and commit, over a disk that may fail or
    crash at any system call. */
module Store {
  import opened Bytes
  import opened Documents
  import opened Images
  import opened SystemCalls
  import opened Commit
  import opened Protocol
  import opened ProtocolSerial
  import Patch
  import ProtocolAnswers
  import ProtocolSafety
  import Resolve

  /** An empty path, or one that ends in a slash. */
  predicate NoDestination(path: Path) {
    path == [] || path[|path| - 1] == []
  }

  /** What a call answers when nothing fails, and the document it leaves. */
  ghost function Answered(toml: Toml, fs: Resolve.FileSystem, path: Path, request: Request, before: Revision)
    : (SaveResult, Revision)
  {
    match Resolve.Resolved(fs, path)
    case Err(_) => (Refusal(StorageFailure), before)
    case Ok(target) =>
      if NoDestination(path) || target == [] then (Refusal(StorageFailure), before)
      else if !RollbackTargetMatches(target, request) then (Refusal(RevisionChanged), before)
      else Intended(toml, path, target, request, before)
  }

  /** What every call keeps, whatever fails: the document reads as before or as
      intended at every moment, crashes included; a status that is not stored leaves
      it alone; success has stored it durably. */
  ghost predicate Kept(before: Image, start: seq<Image>, image: Image, trace: seq<Image>, name: Name, intended: Revision,
                       status: Status) {
    && SafeRun(before, start, trace, name, intended)
    && (!Stored(status) ==> Live(image, name) == Live(before, name))
    && (Stored(status) ==> Live(image, name) == intended)
    && (status == Success && intended != Live(before, name) ==> Commit.Durable(image, name, intended))
  }

  /** Reading, locking and checking leave the disk as it is. */
  ghost predicate Idle(before: Image, start: seq<Image>, disk: Disk, name: Name)
    reads disk
  {
    disk.Valid() && disk.image == before && Quiet(before, start, disk.trace, name)
  }

  lemma IdleIsKept(before: Image, start: seq<Image>, trace: seq<Image>, name: Name, intended: Revision, status: Status)
    requires Quiet(before, start, trace, name)
    requires Stored(status) ==> intended == Live(before, name)
    ensures Kept(before, start, before, trace, name, intended, status)
  {
    QuietIsSafe(before, start, trace, name, intended);
  }

  lemma SafeJoin(before: Image, start: seq<Image>, middle: seq<Image>, trace: seq<Image>, name: Name, wanted: Revision)
    requires SafeRun(before, start, middle, name, wanted) && SafeRun(before, middle, trace, name, wanted)
    ensures SafeRun(before, start, trace, name, wanted)
  {}

  lemma ReplacedIsKept(before: Image, start: seq<Image>, middle: seq<Image>, image: Image, trace: seq<Image>, name: Name,
                       bytes: ByteString, mode: nat, status: Status)
    requires Quiet(before, start, middle, name) && SafeRun(before, middle, trace, name, Revision(true, bytes))
    requires Committed(before, image, name, bytes, mode, status)
    ensures Kept(before, start, image, trace, name, Revision(true, bytes), status)
  {
    hide SafeRun, Quiet, CrashOutcome, Untouched, Commit.Durable;
    QuietIsSafe(before, start, middle, name, Revision(true, bytes));
    SafeJoin(before, start, middle, trace, name, Revision(true, bytes));
    if !Stored(status) {
      UntouchedOutcomes(before, image, name);
    }
  }

  lemma RemovedIsKept(before: Image, start: seq<Image>, middle: seq<Image>, image: Image, trace: seq<Image>, name: Name,
                      status: Status)
    requires Quiet(before, start, middle, name) && SafeRun(before, middle, trace, name, MISSING)
    requires Removed(before, image, name, true, status)
    ensures Kept(before, start, image, trace, name, MISSING, status)
  {
    hide SafeRun, Quiet, CrashOutcome, Untouched, Commit.Durable;
    QuietIsSafe(before, start, middle, name, MISSING);
    SafeJoin(before, start, middle, trace, name, MISSING);
    if !Stored(status) {
      UntouchedOutcomes(before, image, name);
    }
  }

  lemma FaultlessAfter(script: seq<Event>)
    requires Faultless(script)
    ensures Faultless(Disk.After(script)) && Disk.Next(script) != Fault
  {}

  /** A system call that changes nothing. */
  method Probe(disk: Disk, ghost before: Image, ghost start: seq<Image>, ghost name: Name) returns (ok: bool)
    requires Idle(before, start, disk, name)
    modifies disk
    ensures Idle(before, start, disk, name)
    ensures Faultless(old(disk.script)) ==> ok && Faultless(disk.script)
  {
    hide Quiet, Known;
    if Faultless(disk.script) {
      FaultlessAfter(disk.script);
    }
    UntouchedSelf(before, name);
    ghost var trace := disk.trace;
    ok := disk.Probe();
    QuietStep(before, start, trace, disk.image, name);
  }

  /** Reading the document, as `readDocument` does. */
  method ReadDocument(disk: Disk, toml: Toml, name: Name, target: Path, ghost before: Image, ghost start: seq<Image>)
    returns (parsed: ParseResult)
    requires Idle(before, start, disk, name)
    modifies disk
    ensures Idle(before, start, disk, name)
    ensures Faultless(old(disk.script)) ==> Faultless(disk.script) && parsed != Rejected(IoError)
    ensures parsed != Rejected(IoError) ==> parsed == ParseRevision(toml, Live(before, name), target)
  {
    hide Quiet, Known;
    if Faultless(disk.script) {
      FaultlessAfter(disk.script);
    }
    UntouchedSelf(before, name);
    ghost var trace := disk.trace;
    var revision := disk.Read(name);
    QuietStep(before, start, trace, disk.image, name);
    if revision.None? {
      return Rejected(IoError);
    }
    parsed := ParseRevision(toml, revision.value, target);
  }

  /** Create the directories, open the lock file and take the lock. */
  method Lock(disk: Disk, ghost before: Image, ghost start: seq<Image>, ghost name: Name) returns (ok: bool)
    requires Idle(before, start, disk, name)
    modifies disk
    ensures Idle(before, start, disk, name)
    ensures Faultless(old(disk.script)) ==> ok && Faultless(disk.script)
  {
    ok := Probe(disk, before, start, name);
    if ok {
      ok := Probe(disk, before, start, name);
    }
    if ok {
      ok := Probe(disk, before, start, name);
    }
  }

  function ReadFailure(code: Code): SaveResult {
    if code == IoError then Refusal(StorageFailure) else Refused(Invalid, [Failed(code)])
  }

  function Refused(status: Status, diagnostics: seq<Diagnostic>): SaveResult {
    Patch.Refused(status, diagnostics)
  }

  /** The plan for the document read under the lock. */
  method Decide(toml: Toml, request: Request, current: Snapshot) returns (plan: Decision)
    ensures plan == Planned(toml, request, current)
  {
    if request.Restore? && current.revision != request.staged {
      return Answer(Refusal(RevisionChanged));
    }
    var patched: SaveResult;
    if request.Restore? {
      patched := PrepareRestore(toml, request.previous, request.schema);
    } else {
      patched := Patch.PatchDocument(toml, current, request.edits, request.schema);
    }
    if patched.status != Success || patched.snapshot.None? {
      return Answer(patched);
    }
    if request.Restore? && !request.previous.revision.present {
      return if current.revision.present then Change(patched, true) else Answer(patched);
    }
    if patched.snapshot.value.revision.bytes == current.revision.bytes {
      return Answer(patched.(snapshot := Some(current)));
    }
    return Change(patched, false);
  }

  const TEMPORARY_INFIX: ByteString := [DOT, 116, 109, 112, 45]

  /** A stored result is the serial answer, or that answer turned into a durability failure. */
  predicate AnswersAs(result: SaveResult, answer: SaveResult) {
    result == answer || result == SaveResult(DurabilityFailure, answer.snapshot, [], [Failed(AtomicWriteError)])
  }

  /** Exactly a staging call that stored hands back the document that was read. */
  ghost predicate HandsBack(toml: Toml, request: Request, status: Status, before: Revision, target: Path,
                            previous: Option<Snapshot>) {
    && (previous.Some? <==> request.Stage? && Stored(status))
    && (previous.Some? ==> Parsed(previous.value) == ParseRevision(toml, before, target))
  }

  /** Replace or remove the document the plan was made for. */
  method CommitChange(disk: Disk, path: Path, target: Path, current: Snapshot, plan: Decision, ghost before: Image,
                      ghost start: seq<Image>) returns (result: SaveResult)
    requires target != [] && Idle(before, start, disk, NameOf(target))
    requires plan.Change? && plan.patched.status == Success && plan.patched.snapshot.Some?
    requires plan.removal ==> current.revision.present
    requires !plan.removal ==> plan.patched.snapshot.value.revision.present
    requires Live(before, NameOf(target)) == current.revision
    modifies disk
    ensures Kept(before, start, disk.image, disk.trace, NameOf(target), Changed(plan), result.status)
    ensures Faultless(old(disk.script)) ==> result == Placed(plan.patched, path)
    ensures Stored(result.status) ==> AnswersAs(result, Placed(plan.patched, path))
  {
    hide SafeRun, Quiet, Committed, Removed, Known, Untouched, Kept;
    var name := NameOf(target);
    ghost var middle := disk.trace;
    var status;
    if plan.removal {
      status := RemoveDocument(disk, name, current.revision, false);
      RemovedIsKept(before, start, middle, disk.image, disk.trace, name, status);
    } else {
      var bytes := plan.patched.snapshot.value.revision.bytes;
      var pattern := [DOT] + target[|target| - 1] + TEMPORARY_INFIX;
      status := ReplaceDocument(disk, name, pattern, current.revision, bytes, false);
      ReplacedIsKept(before, start, middle, disk.image, disk.trace, name, bytes, ModeFor(before, name, current.revision), status);
    }
    if !Stored(status) {
      return Refusal(status);
    }
    result := if status == DurabilityFailure then Undurable(Placed(plan.patched, path)) else Placed(plan.patched, path);
  }

  /** The target's entry in its directory. */
  function NameOf(target: Path): Name
    requires target != []
  {
    Named(target[|target| - 1])
  }

  /** The call once the path has led to a target. */
  method UpdateTarget(disk: Disk, toml: Toml, fs: Resolve.FileSystem, path: Path, target: Path, request: Request,
                      ghost before: Image, ghost start: seq<Image>)
    returns (result: SaveResult, previous: Option<Snapshot>)
    requires target != [] && Resolve.Resolved(fs, path) == Resolve.Ok(target)
    requires Idle(before, start, disk, NameOf(target))
    modifies disk
    ensures var (answer, after) := Intended(toml, path, target, request, Live(before, NameOf(target)));
      && Kept(before, start, disk.image, disk.trace, NameOf(target), after, result.status)
      && (Faultless(old(disk.script)) ==> result == answer)
      && (after == Live(before, NameOf(target)) ==> disk.image == before)
      && (Stored(result.status) ==> AnswersAs(result, answer))
    ensures HandsBack(toml, request, result.status, Live(before, NameOf(target)), target, previous)
  {
    hide Kept, Idle, Planned, ParseRevision;
    var name := NameOf(target);
    previous := None;
    ghost var (answer, after) := Intended(toml, path, target, request, Live(before, name));
    var initial := ReadDocument(disk, toml, name, target, before, start);
    if initial.Rejected? {
      Refuse(before, start, disk, name, after, ReadFailure(initial.code).status);
      return ReadFailure(initial.code), None;
    }
    var locked := Lock(disk, before, start, name);
    if !locked {
      Refuse(before, start, disk, name, after, StorageFailure);
      return Refusal(StorageFailure), None;
    }
    var again := Resolve.ResolveTarget(fs, path);
    assert again == Resolve.Ok(target);
    var current := ReadDocument(disk, toml, name, target, before, start);
    if current.Rejected? {
      Refuse(before, start, disk, name, after, ReadFailure(current.code).status);
      return ReadFailure(current.code), None;
    }
    ReadRevision(toml, before, name, target);
    var plan := Decide(toml, request, current.snapshot);
    if plan.Answer? {
      ProtocolAnswers.AnswerStatus(toml, request, current.snapshot);
      Refuse(before, start, disk, name, after, plan.result.status);
      if plan.result.status == Success && request.Stage? {
        previous := Some(current.snapshot);
      }
      return plan.result, previous;
    }
    ChangeOf(toml, request, current.snapshot);
    ProtocolSafety.ChangeChanges(toml, request, current.snapshot);
    result := CommitChange(disk, path, target, current.snapshot, plan, before, start);
    if Stored(result.status) && request.Stage? {
      previous := Some(current.snapshot);
    }
  }

  lemma Refuse(before: Image, start: seq<Image>, disk: Disk, name: Name, intended: Revision, status: Status)
    requires Idle(before, start, disk, name) && (Stored(status) ==> intended == Live(before, name))
    ensures Kept(before, start, disk.image, disk.trace, name, intended, status) && disk.image == before
  {
    IdleIsKept(before, start, disk.trace, name, intended, status);
  }

  lemma ReadRevision(toml: Toml, before: Image, name: Name, target: Path)
    requires ParseRevision(toml, Live(before, name), target).Parsed?
    ensures ParseRevision(toml, Live(before, name), target).snapshot.revision == Live(before, name)
  {
    ProtocolSafety.ReadIsParse(toml, Live(before, name), target);
  }

  lemma ChangeOf(toml: Toml, request: Request, current: Snapshot)
    requires Planned(toml, request, current).Change?
    ensures var plan := Planned(toml, request, current);
      && plan.patched.status == Success && plan.patched.snapshot.Some?
      && (plan.removal ==> current.revision.present)
      && (!plan.removal ==> Changed(plan).present)
  {
    hide Patched;
    if !Planned(toml, request, current).removal {
      ProtocolSafety.ChangeIsPresent(toml, request, current);
    }
  }

  lemma AnswerLeaves(toml: Toml, path: Path, target: Path, request: Request, before: Image, start: seq<Image>,
                     image: Image, trace: seq<Image>, status: Status)
    requires target != []
    requires var (answer, after) := Intended(toml, path, target, request, Live(before, NameOf(target)));
      Kept(before, start, image, trace, NameOf(target), after, status) && status == answer.status
    ensures Live(image, NameOf(target)) == Intended(toml, path, target, request, Live(before, NameOf(target))).1
  {
    hide Planned, ParseRevision, SafeRun;
  }

  /** One call, from resolving the path to the commit. */
  method UpdateDocument(disk: Disk, toml: Toml, fs: Resolve.FileSystem, path: Path, request: Request)
    returns (result: SaveResult, previous: Option<Snapshot>)
    requires disk.Valid()
    modifies disk
    ensures var resolved := Resolve.Resolved(fs, path);
      if NoDestination(path) || resolved.Err? || resolved.path == [] then
        disk.image == old(disk.image) && result == Refusal(StorageFailure) && previous.None?
      else
        CallKept(toml, fs, path, request, old(disk.image), old(disk.trace), disk.image, disk.trace, result, previous,
                 Faultless(old(disk.script)))
  {
    hide Quiet, Known, CallKept, Resolve.Resolved;
    previous := None;
    if NoDestination(path) {
      return Refusal(StorageFailure), None;
    }
    var resolved := Resolve.ResolveTarget(fs, path);
    if resolved.Err? || resolved.path == [] {
      return Refusal(StorageFailure), None;
    }
    var target := resolved.path;
    ghost var before, start, script := disk.image, disk.trace, disk.script;
    QuietStart(before, start, NameOf(target));
    if !RollbackTargetMatches(target, request) {
      RefusedTarget(toml, fs, path, target, request, before, start, Faultless(script));
      return Refusal(RevisionChanged), None;
    }
    result, previous := UpdateTarget(disk, toml, fs, path, target, request, before, start);
    AnsweredTarget(toml, fs, path, target, request, before, start, disk.image, disk.trace, result, previous, Faultless(script));
  }

  /** What a call on a good path keeps and answers; without a change to make it leaves the
      whole directory as it was, faults or not. */
  ghost predicate CallKept(toml: Toml, fs: Resolve.FileSystem, path: Path, request: Request, before: Image,
                           start: seq<Image>, image: Image, trace: seq<Image>, result: SaveResult,
                           previous: Option<Snapshot>, faultless: bool)
  {
    && Resolve.Resolved(fs, path).Ok? && Resolve.Resolved(fs, path).path != []
    && var name := NameOf(Resolve.Resolved(fs, path).path);
       var (answer, after) := Answered(toml, fs, path, request, Live(before, name));
       && Kept(before, start, image, trace, name, after, result.status)
       && (faultless ==> result == answer && Live(image, name) == after)
       && (after == Live(before, name) ==> image == before)
       && (Stored(result.status) ==> AnswersAs(result, answer))
       && HandsBack(toml, request, result.status, Live(before, name), Resolve.Resolved(fs, path).path, previous)
  }

  lemma RefusedTarget(toml: Toml, fs: Resolve.FileSystem, path: Path, target: Path, request: Request, before: Image,
                      start: seq<Image>, faultless: bool)
    requires Resolve.Resolved(fs, path) == Resolve.Ok(target) && target != [] && !NoDestination(path)
    requires !RollbackTargetMatches(target, request)
    ensures CallKept(toml, fs, path, request, before, start, before, start, Refusal(RevisionChanged), None, faultless)
  {
    hide SafeRun, RollbackTargetMatches, Resolve.Resolved;
    QuietStart(before, start, NameOf(target));
    QuietIsSafe(before, start, start, NameOf(target), Live(before, NameOf(target)));
  }

  lemma AnsweredTarget(toml: Toml, fs: Resolve.FileSystem, path: Path, target: Path, request: Request, before: Image,
                       start: seq<Image>, image: Image, trace: seq<Image>, result: SaveResult,
                       previous: Option<Snapshot>, faultless: bool)
    requires Resolve.Resolved(fs, path) == Resolve.Ok(target) && target != [] && !NoDestination(path)
    requires RollbackTargetMatches(target, request)
    requires var (answer, after) := Intended(toml, path, target, request, Live(before, NameOf(target)));
      && Kept(before, start, image, trace, NameOf(target), after, result.status)
      && (faultless ==> result == answer)
      && (after == Live(before, NameOf(target)) ==> image == before)
      && (Stored(result.status) ==> AnswersAs(result, answer))
    requires HandsBack(toml, request, result.status, Live(before, NameOf(target)), target, previous)
    ensures CallKept(toml, fs, path, request, before, start, image, trace, result, previous, faultless)
  {
    hide Kept, RollbackTargetMatches, Resolve.Resolved, Intended;
    if faultless {
      AnswerLeaves(toml, path, target, request, before, start, image, trace, result.status);
    }
  }
}
