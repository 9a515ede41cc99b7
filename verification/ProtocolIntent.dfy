/** What one request does to a document at rest, and what it answers, said in terms of
    the patch and the schema alone. */
module ProtocolIntent {
  import opened Bytes
  import opened Documents
  import opened Patch
  import opened Protocol
  import opened ProtocolSerial
  import ProtocolSafety
  import PatchProperties

  /** `current` is the document read at `target`: bytes within the size limit that the
      library parses, or a missing document without values. */
  ghost predicate ReadAs(toml: Toml, before: Revision, target: Path, current: Snapshot) {
    && current.path == Some(target) && current.revision == before
    && if before.present then |before.bytes| <= 65536 && toml.parse(before.bytes) == Some(current.overrides)
       else before == MISSING && current.overrides == map[]
  }

  lemma ReadsAs(toml: Toml, before: Revision, target: Path, current: Snapshot)
    requires ReadAs(toml, before, target, current)
    ensures ParseRevision(toml, before, target) == Parsed(current) && current.revision == before
  {}

  /** A document that is too large or does not parse is refused and left, whatever the
      request. */
  lemma UnreadableIsLeft(toml: Toml, path: Path, target: Path, request: Request, before: Revision)
    requires before.present && (|before.bytes| > 65536 || toml.parse(before.bytes).None?)
    ensures var code := if |before.bytes| > 65536 then TooLarge else SyntaxError;
      Intended(toml, path, target, request, before) == (SaveResult(Invalid, None, [], [Diagnostic(code, Error)]), before)
  {
    hide Planned;
  }

  /** A save or staging call: what does not patch is answered and left; a patch that gives
      the bytes there were is answered with the document that was read, which is left as
      it is, missing or not; any other patch is what remains, and is answered under the
      caller's path. */
  lemma EditIntended(toml: Toml, path: Path, target: Path, request: Request, before: Revision, current: Snapshot)
    requires !request.Restore? && ReadAs(toml, before, target, current)
    ensures var patched := PatchOf(toml, current, request.edits, request.schema);
      var (answer, after) := Intended(toml, path, target, request, before);
      if patched.status != Success then answer == patched && after == before
      else
        && patched.snapshot.Some?
        && answer.status == Success && answer.conflicts == [] && answer.diagnostics == patched.diagnostics
        && var bytes := patched.snapshot.value.revision.bytes;
           if bytes == before.bytes then after == before && answer.snapshot == Some(current)
           else
             && after == Revision(true, bytes)
             && answer.snapshot == Some(Snapshot(Some(path), after, patched.snapshot.value.overrides))
  {
    hide PatchOf, ParseRevision;
    ReadsAs(toml, before, target, current);
    var patched := PatchOf(toml, current, request.edits, request.schema);
    if patched.status == Success {
      PatchProperties.SuccessParts(toml, current, request.edits, request.schema);
      ProtocolSafety.PatchIsPresent(toml, current, request.edits, request.schema);
    }
  }

  /** So the empty batch neither creates a missing file nor changes one. */
  lemma EmptyBatchChangesNothing(toml: Toml, path: Path, target: Path, request: Request, before: Revision)
    requires !request.Restore? && request.edits == [] && (before.present || before == MISSING)
    ensures Intended(toml, path, target, request, before).1 == before
  {
    hide Patched, Apply, ParseDocument;
    var read := ParseRevision(toml, before, target);
    if read.Parsed? {
      var current := read.snapshot;
      assert current.revision == before by { ProtocolSafety.ReadIsParse(toml, before, target); }
      PatchedIs(toml, request, current);
      if PatchOf(toml, current, [], request.schema).status == Success {
        EmptyBatchBytes(toml, current, request.schema);
      }
    }
  }

  lemma PatchedIs(toml: Toml, request: Request, current: Snapshot)
    requires !request.Restore?
    ensures Patched(toml, request, current) == PatchOf(toml, current, request.edits, request.schema)
  {}

  lemma EmptyBatchBytes(toml: Toml, current: Snapshot, schema: Schema)
    requires PatchOf(toml, current, [], schema).status == Success
    ensures PatchOf(toml, current, [], schema).snapshot.Some?
    ensures PatchOf(toml, current, [], schema).snapshot.value.revision.bytes == current.revision.bytes
  {
    hide PatchOf, Apply;
    PatchProperties.SuccessParts(toml, current, [], schema);
    assert PlanAll(toml, current, []) == Some(EMPTY_PLAN) && AllReplacements(toml, current, EMPTY_PLAN) == [];
    PatchProperties.AppliedParts(toml, current, [], []);
    PatchProperties.NothingSubstituted(current.revision.bytes, 0);
  }

  /** What a rollback to `previous` puts to its schema: the earlier document as its bytes
      are read again, or a document without a path if there was none. */
  ghost predicate Reread(toml: Toml, previous: Snapshot, snapshot: Snapshot) {
    if previous.revision.present then
      && snapshot.path == previous.path && snapshot.revision == Revision(true, previous.revision.bytes)
      && |previous.revision.bytes| <= 65536 && toml.parse(previous.revision.bytes) == Some(snapshot.overrides)
    else snapshot == Snapshot(None, MISSING, map[])
  }

  ghost predicate Restorable(toml: Toml, request: Request)
    requires request.Restore?
  {
    exists snapshot :: Reread(toml, request.previous, snapshot) && DocumentHolds(snapshot, request.schema)
  }

  lemma PreparedIs(toml: Toml, request: Request, snapshot: Snapshot)
    requires request.Restore?
    ensures var prepared := PrepareRestore(toml, request.previous, request.schema);
      && prepared.status in {Success, Invalid} && prepared.conflicts == []
      && (prepared.status == Success <==> Restorable(toml, request)) && (prepared.status == Success <==> prepared.snapshot.Some?)
      && (prepared.snapshot == Some(snapshot) ==> Reread(toml, request.previous, snapshot))
  {
    hide DiagnosticsOf, DocumentHolds;
    var prepared := PrepareRestore(toml, request.previous, request.schema);
    if prepared.snapshot.Some? {
      ValidityIsFieldwise(prepared.snapshot.value, request.schema);
      assert Reread(toml, request.previous, prepared.snapshot.value);
    }
    if Restorable(toml, request) {
      var again :| Reread(toml, request.previous, again) && DocumentHolds(again, request.schema);
      ValidityIsFieldwise(again, request.schema);
    }
  }

  /** A rollback of `staged` to `previous`: any other document is left alone; an earlier
      document that its schema refuses is refused; else exactly the earlier bytes remain,
      or no document if there was none. */
  lemma RollbackIntended(toml: Toml, path: Path, target: Path, request: Request, before: Revision, current: Snapshot)
    requires request.Restore? && ReadAs(toml, before, target, current)
    ensures var (answer, after) := Intended(toml, path, target, request, before);
      var earlier := request.previous.revision;
      if before != request.staged then
        after == before && answer == SaveResult(RevisionChanged, None, [], [Diagnostic(AtomicWriteError, Error)])
      else if !Restorable(toml, request) then
        after == before && answer.status == Invalid && answer.snapshot == None && answer.conflicts == []
      else
        && answer.status == Success && answer.conflicts == [] && answer.snapshot.Some?
        && if !earlier.present then after == MISSING && answer.snapshot.value.revision == MISSING
           else if earlier.bytes == before.bytes then after == before && answer.snapshot == Some(current)
           else after == Revision(true, earlier.bytes) && answer.snapshot.value.revision == after
                && answer.snapshot.value.path == Some(path)
  {
    hide PrepareRestore, ParseRevision, ParseDocument, Restorable, Reread;
    ReadsAs(toml, before, target, current);
    var prepared := PrepareRestore(toml, request.previous, request.schema);
    PreparedIs(toml, request, EMPTY);
    if prepared.snapshot.Some? {
      PreparedIs(toml, request, prepared.snapshot.value);
      RereadRevision(toml, request.previous, prepared.snapshot.value);
    }
  }

  lemma RereadRevision(toml: Toml, previous: Snapshot, snapshot: Snapshot)
    requires Reread(toml, previous, snapshot)
    ensures snapshot.revision == if previous.revision.present then Revision(true, previous.revision.bytes) else MISSING
  {}
}
