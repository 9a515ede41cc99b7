/** A staged new file that its rollback cannot remove: the schema's domain check looks
    at the path, and a rollback to a missing document validates one without a path. */
module ProtocolCreation {
  import opened Bytes
  import opened Splice
  import opened SpliceSize
  import opened Documents
  import opened Patch
  import opened PatchProperties
  import opened Fragment
  import opened FragmentPlan
  import opened FragmentPatch
  import opened FragmentLiterals
  import opened FragmentInsertion
  import opened FragmentItems
  import opened FragmentCandidate
  import opened FragmentSuccess
  import opened Protocol
  import opened ProtocolSafety
  import opened ProtocolSerial
  import opened ProtocolRollback

  const KEY: KeyPath := [[120]]

  const EDITS: seq<Edit> := [Edit(KEY, None, Some(Boolean(true)))]

  /** Accepts every document that has a path. */
  const WARY: Schema := Schema([], Some((snapshot: Snapshot) => if snapshot.path.None? then [Failed(ValidationError)] else []))

  function Missing(target: Path): Snapshot {
    Snapshot(Some(target), MISSING, map[])
  }

  lemma WaryAccepts(snapshot: Snapshot)
    ensures Valid(snapshot, WARY) <==> snapshot.path.Some?
  {
    var notes := DiagnosticsOf(snapshot, WARY);
    assert FieldsDiagnostics(snapshot, []) == [];
    if snapshot.path.None? {
      assert notes[0] == Failed(ValidationError);
    }
  }

  lemma EmptyParses()
    ensures Parse([]) == Some(map[]) && HeadersFrom([], 0) == []
  {
    assert Locate([], 0, []) == Some([]);
    assert KeysOf([]) == [];
    assert MapOf([], []) == map[];
  }

  lemma BatchIsGood(target: Path)
    ensures !BadBatch(Missing(target), EDITS) && LiteralEdits(EDITS)
    ensures forall k :: 0 <= k < |EDITS| ==> !Conflicting(Missing(target), EDITS[k])
  {}

  lemma LineIsShort()
    ensures |InsertedLine(TOML, [], KEY[0], Boolean(true))| == 11
    ensures |VALUE_PREFIX + Print(Boolean(true))| <= MAXIMUM_DOCUMENT_BYTES
  {
    hide EscapeBytes, KeyText;
    PrintedKey(KEY[0]);
    PlainBytes(KEY[0]);
  }

  /** The plan is one line at the front. */
  lemma PlanIsOneLine(target: Path)
    ensures PlanAll(TOML, Missing(target), EDITS).Some?
    ensures PlannedReplacements(Missing(target), EDITS)
         == [Replacement(Span(0, 0), InsertedLine(TOML, [], KEY[0], Boolean(true)))]
  {
    hide InsertedLine;
    var line := InsertedLine(TOML, [], KEY[0], Boolean(true));
    var none: seq<Edit>, nothing: Insertions, parent: KeyPath := [], [], [];
    BatchIsGood(target);
    assert EDITS[..|EDITS| - 1] == none && KEY[..|KEY| - 1] == parent;
    assert !KeyUsed(none, KEY);
    assert PlanAll(TOML, Missing(target), none) == Some(EMPTY_PLAN);
    assert Appended(nothing, parent, line) == [(parent, line)];
    var plan := Patch.Plan([], [(parent, line)], []);
    assert PlanOne(TOML, Missing(target), EDITS[0], EMPTY_PLAN) == Some(plan);
    assert PlanAll(TOML, Missing(target), EDITS) == Some(plan);
    var one: Insertions := [(parent, line)];
    assert one[..|one| - 1] == nothing;
    assert InsertionsOf(TOML, Missing(target), nothing) == [];
    assert [] + line == line;
    assert InsertionOf(TOML, Missing(target), parent, line) == Replacement(Span(0, 0), line);
    assert InsertionsOf(TOML, Missing(target), one) == [Replacement(Span(0, 0), line)];
  }

  lemma CreationFits(target: Path)
    ensures FitsLimits(Missing(target), EDITS)
  {
    hide InsertedLine, PlanAll, PlannedReplacements, Print;
    PlanIsOneLine(target);
    LineIsShort();
    var rs := PlannedReplacements(Missing(target), EDITS);
    var none: seq<Replacement> := [];
    assert rs[..|rs| - 1] == none;
    assert Growth(none) == 0;
  }

  lemma CreationAgrees(target: Path)
    ensures AgreesAfter(Missing(target), EDITS) && !MeetsAtEnd(Missing(target), EDITS)
  {
    hide Headless, After, HeadersFrom;
    var root: KeyPath := [];
    assert KEY[..|KEY| - 1] == root;
    EmptyParses();
    forall parent | Receives(Missing(target), EDITS, parent) ensures parent == root {
      var k :| 0 <= k < |EDITS| && Adds(Missing(target), EDITS[k], parent);
    }
    OneTableNeverMeets(Missing(target), EDITS, root);
    RootHasHeader([]);
  }

  lemma RootHasHeader(doc: ByteString)
    ensures !Headless(doc, [])
  {}

  lemma CreationIsAccepted(target: Path)
    ensures Valid(Missing(target), WARY) && AcceptsCandidate(Missing(target), EDITS, WARY)
  {
    hide Parse, PlanAll, PlannedReplacements, Substituted, Valid, WARY;
    WaryAccepts(Missing(target));
    forall snapshot: Snapshot | snapshot.path.Some? ensures Valid(snapshot, WARY) {
      WaryAccepts(snapshot);
    }
  }

  /** Staging the edit on a missing document succeeds. */
  lemma CreationSucceeds(target: Path)
    ensures PatchOf(TOML, Missing(target), EDITS, WARY).status == Success
  {
    hide PatchOf, BadBatch, Conflicting, FitsLimits, AgreesAfter, MeetsAtEnd, AcceptsCandidate, WARY, LiteralEdits, Valid;
    EmptyParses();
    BatchIsGood(target);
    CreationFits(target);
    CreationAgrees(target);
    CreationIsAccepted(target);
    SuccessExactly(Missing(target), EDITS, WARY);
  }

  lemma ParsesMissing(target: Path)
    ensures Parse(Missing(target).revision.bytes) == Some(Missing(target).overrides)
  {
    hide Parse;
    EmptyParses();
  }

  /** The new document is there, because it binds the key. */
  lemma CreationCreates(target: Path)
    ensures PatchOf(TOML, Missing(target), EDITS, WARY).snapshot.Some?
    ensures PatchOf(TOML, Missing(target), EDITS, WARY).snapshot.value.revision.present
    ensures PatchOf(TOML, Missing(target), EDITS, WARY).snapshot.value.revision.bytes != []
  {
    hide PatchOf, Parse, ParseDocument, WARY, PlanAll, Normalize, LiteralEdits;
    CreationSucceeds(target);
    ParsesMissing(target);
    SuccessMeansSeenAndRealised(TOML, Missing(target), EDITS, WARY);
    BatchIsGood(target);
    PatchOverlaysRequest(Missing(target), EDITS, WARY, KEY);
    PatchIsPresent(TOML, Missing(target), EDITS, WARY);
    var after := PatchOf(TOML, Missing(target), EDITS, WARY).snapshot.value;
    assert EDITS[0].key == KEY && after.ValueAt(KEY) == Some(Boolean(true));
    BoundIsNotEmpty(after);
  }

  lemma BoundIsNotEmpty(after: Snapshot)
    requires ParseDocument(TOML, after.revision.bytes, after.path) == Parsed(after) && after.overrides != map[]
    ensures after.revision.bytes != []
  {
    hide Parse;
    EmptyParses();
  }

  /** Wherever the file is, staging creates it, and the rollback with what staging
      returned is refused and leaves it. */
  lemma CreationStays(path: Path, target: Path)
    ensures var (staged, after) := Intended(TOML, path, target, Stage(EDITS, WARY), MISSING);
      && staged.status == Success && staged.snapshot.Some? && after.present
      && var rollback := Restore(staged.snapshot.value.revision, Missing(target), WARY);
      var (undone, left) := Intended(TOML, path, target, rollback, after);
      undone.status == Invalid && left == after
  {
    hide PatchOf, WARY, Valid, ParseDocument, Intended;
    CreationSucceeds(target);
    CreationCreates(target);
    StageIntended(path, target);
    RollbackUndoesStaging(TOML, path, target, EDITS, WARY, MISSING, WARY);
    WaryAccepts(EMPTY);
    assert ParseRevision(TOML, MISSING, target) == Parsed(Missing(target));
    assert !Valid(Restored(Missing(target)), WARY);
  }

  lemma StageIntended(path: Path, target: Path)
    requires var patched := PatchOf(TOML, Missing(target), EDITS, WARY);
      && patched.status == Success && patched.snapshot.Some? && patched.snapshot.value.revision.present
      && patched.snapshot.value.revision.bytes != []
    ensures var (staged, after) := Intended(TOML, path, target, Stage(EDITS, WARY), MISSING);
      staged.status == Success && staged.snapshot.Some? && after.present
  {
    hide PatchOf, WARY;
    assert Patched(TOML, Stage(EDITS, WARY), Missing(target)) == PatchOf(TOML, Missing(target), EDITS, WARY);
  }
}
