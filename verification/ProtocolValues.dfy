/** What committed saves do to the values of a document, over whole runs, in the
    concrete fragment. */
module ProtocolValues {
  import opened Bytes
  import opened Documents
  import opened Patch
  import opened Protocol
  import opened ProtocolSafety
  import opened Fragment
  import PatchProperties
  import FragmentLiterals

  lemma EmptyDocument()
    ensures Parse([]) == Some(map[])
  {
    assert Locate([], 0, []) == Some([]);
    assert MapOf([], []) == map[];
  }

  lemma SeenIsParsed(seen: Snapshot, target: Path)
    requires ParseRevision(TOML, seen.revision, target) == Parsed(seen)
    ensures Parse(seen.revision.bytes) == Some(seen.overrides)
  {
    hide Parse;
    EmptyDocument();
  }

  /** In every run, a save that no other program disturbs changes only the keys it
      edits: afterwards each of them has its requested value, or is gone if removal
      was requested, and every other key has the value or absence it had on disk. */
  lemma SavesChangeOnlyTheirKeys(w: World, actions: seq<Action>, c: Update, key: KeyPath)
    requires Initial(w) && c in Run(TOML, w, actions).commits && !c.request.Restore? && !c.disturbed
    requires forall k :: 0 <= k < |c.request.edits| && c.request.edits[k].pending.Some? ==>
      FragmentLiterals.Literal(c.request.edits[k].pending.value)
    ensures ParseRevision(TOML, c.was, c.target).Parsed? && ParseRevision(TOML, c.now, c.target).Parsed?
    ensures var before := ParseRevision(TOML, c.was, c.target).snapshot;
      var after := ParseRevision(TOML, c.now, c.target).snapshot;
      var edits := c.request.edits;
      && (forall k :: 0 <= k < |edits| && edits[k].key == key ==> after.ValueAt(key) == edits[k].pending)
      && (!KeyUsed(edits, key) ==> after.ValueAt(key) == before.ValueAt(key))
  {
    hide Run, PatchOf, Parse, FragmentLiterals.Literal;
    CommitsReplaceWhatTheySaw(TOML, w, actions, c);
    var edits, schema := c.request.edits, c.request.schema;
    SeenIsParsed(c.seen, c.target);
    PatchProperties.SuccessMeansSeenAndRealised(TOML, c.seen, edits, schema);
    FragmentLiterals.PatchOverlaysRequest(c.seen, edits, schema, key);
    var snapshot := PatchOf(TOML, c.seen, edits, schema).snapshot.value;
    ParsedIsPresent(TOML, snapshot);
    SamePathSameValues(TOML, snapshot, c.target);
  }
}
