/** A successful patch of a fragment document binds exactly the old bindings
    overlaid with the batch. */
module FragmentPatch {
  import opened Bytes
  import opened Splice
  import opened Documents
  import opened Patch
  import opened PatchProperties
  import opened Fragment
  import opened FragmentLines
  import opened FragmentFrame
  import opened FragmentTally
  import opened FragmentPlan

  // ---------------------------------------------------------------------------
  // The plan is line-wise

  /** A plan without conflicts for a batch the fragment can express. */
  ghost predicate Planned(current: Snapshot, all: seq<Located>, batch: seq<Edit>) {
    && BindingsOfDocument(current, all) && FragmentBatch(batch)
    && PlanAll(TOML, current, batch).Some? && PlanAll(TOML, current, batch).value.conflicts == []
  }

  function PlannedReplacements(current: Snapshot, batch: seq<Edit>): seq<Replacement>
    requires PlanAll(TOML, current, batch).Some?
  {
    AllReplacements(TOML, current, PlanAll(TOML, current, batch).value)
  }

  lemma ReplacementIsPlanned(current: Snapshot, all: seq<Located>, batch: seq<Edit>, r: Replacement)
    requires Planned(current, all, batch) && r in PlannedReplacements(current, batch) && !IsInsertion(r)
    ensures r in PlanAll(TOML, current, batch).value.replacements
  {
    InsertionsAreInsertions(TOML, current, PlanAll(TOML, current, batch).value.insertions);
  }

  /** Each planned replacement edits the binding of an edited key. */
  lemma ReplacementEdits(current: Snapshot, all: seq<Located>, batch: seq<Edit>, r: Replacement) returns (x: Located)
    requires Planned(current, all, batch) && r in PlanAll(TOML, current, batch).value.replacements
    ensures x in all && x.key in EditedKeys(batch)
    ensures if x.key in RemovedKeys(current, batch) then Removes(x, r) else Sets(x, r)
  {
    hide PlanAll, ReplacementOf, Conflicting, Changes, Removes, Sets;
    PlanVerdict(TOML, current, batch);
    CollectMembers(ReplacementFrom(TOML, current), batch, r);
    var k: nat :| k < |batch| && ReplacementFrom(TOML, current)(batch[k]) == Some(r);
    assert Replaces(current, batch[k]) && r == ReplacementOf(TOML, current, batch[k]);
    x := BindingOfEntry(current, all, batch[k].key);
    ReplacementOfBinding(current, all, batch[k], x);
    RemovedByKey(current, batch, k);
  }

  /** A key is removed exactly when its own edit removes it. */
  lemma RemovedByKey(current: Snapshot, batch: seq<Edit>, k: nat)
    requires k < |batch| && PlanAll(TOML, current, batch).Some?
    ensures batch[k].key in EditedKeys(batch)
    ensures batch[k].key in RemovedKeys(current, batch) <==>
      batch[k].pending.None? && batch[k].key in current.overrides
  {
    hide PlanAll;
    PlanVerdict(TOML, current, batch);
    if batch[k].key in RemovedKeys(current, batch) {
      var j :| 0 <= j < |batch| && batch[j].pending.None? && batch[j].key in current.overrides
        && batch[j].key == batch[k].key;
      OneEditPerKey(batch, j, k);
    }
  }

  lemma OneEditPerKey(batch: seq<Edit>, j: nat, k: nat)
    requires !BadKey(batch) && j < |batch| && k < |batch| && batch[j].key == batch[k].key
    ensures j == k
  {}

  lemma RemovalIsPlanned(current: Snapshot, all: seq<Located>, batch: seq<Edit>, x: Located)
    requires Planned(current, all, batch) && x in all && x.key in RemovedKeys(current, batch)
    requires OnLine(current.revision.bytes, x)
    ensures StartingAt(PlannedReplacements(current, batch), x.line).Some?
  {
    hide PlanAll, ReplacementOf, OnLine, PlannedReplacements;
    var k: nat :| k < |batch| && batch[k].pending.None? && batch[k].key in current.overrides && batch[k].key == x.key;
    PlanVerdict(TOML, current, batch);
    NoConflictMeansSeen(TOML, current, batch);
    EditIsPlanned(current, batch, k);
    var r := ReplacementOf(TOML, current, batch[k]);
    CollectMembers(ReplacementFrom(TOML, current), batch, r);
    ReplacementOfBinding(current, all, batch[k], x);
    OnLineBounds(current.revision.bytes, x);
    InPlanned(current, batch, r);
    StartingAtFinds(PlannedReplacements(current, batch), r);
  }

  lemma InPlanned(current: Snapshot, batch: seq<Edit>, r: Replacement)
    requires PlanAll(TOML, current, batch).Some? && r in PlanAll(TOML, current, batch).value.replacements
    ensures r in PlannedReplacements(current, batch)
  {}

  lemma EditIsPlanned(current: Snapshot, batch: seq<Edit>, k: nat)
    requires k < |batch| && batch[k].pending.None? && batch[k].key in current.overrides
    requires !BadBatch(current, batch)
    requires forall i :: 0 <= i < |batch| && Changes(current, batch[i]) ==>
      Same(current.ValueAt(batch[i].key), batch[i].baseline)
    ensures Replaces(current, batch[k])
    ensures ReplacementFrom(TOML, current)(batch[k]) == Some(ReplacementOf(TOML, current, batch[k]))
  {
    hide ReplacementOf;
    assert Changes(current, batch[k]);
    assert !Unsafe(current, batch[k]);
  }

  /** Whatever the batch, the plan edits line by line. */
  lemma PlanIsLineWise(current: Snapshot, all: seq<Located>, batch: seq<Edit>)
    requires Planned(current, all, batch)
    ensures LineWise(current.revision.bytes, all, PlannedReplacements(current, batch), EditedKeys(batch),
                     RemovedKeys(current, batch))
    ensures InsertedSlots(|current.revision.bytes|, PlannedReplacements(current, batch), 0)
         == |NewKeys(current, batch)|
  {
    hide PlanAll, PlannedReplacements, InsertText, StartingAt, EndLines, KeyLines, Removes, Sets, OnLine, InsertedSlots;
    var doc, rs := current.revision.bytes, PlannedReplacements(current, batch);
    forall r | r in rs && !IsInsertion(r)
      ensures exists x :: x in all && x.key in EditedKeys(batch) &&
                if x.key in RemovedKeys(current, batch) then Removes(x, r) else Sets(x, r)
    {
      ReplacementIsPlanned(current, all, batch, r);
      var x := ReplacementEdits(current, all, batch, r);
    }
    BindingsOnLines(current, all);
    forall x | x in all && x.key in RemovedKeys(current, batch) ensures StartingAt(rs, x.line).Some? {
      RemovalIsPlanned(current, all, batch, x);
    }
    InsertionsInPlan(current, all, batch);
    forall p: nat | p <= |doc| ensures PlacedAt(doc, p, InsertText(rs, p)) {}
  }

  lemma InsertionsInPlan(current: Snapshot, all: seq<Located>, batch: seq<Edit>)
    requires Planned(current, all, batch)
    ensures var doc, rs := current.revision.bytes, PlannedReplacements(current, batch);
      && (forall p: nat :: p <= |doc| ==> PlacedAt(doc, p, InsertText(rs, p)))
      && InsertedSlots(|doc|, rs, 0) == |NewKeys(current, batch)|
  {
    hide PlanAll, InsertText, PlacedAt, InsertedSlots;
    var doc, plan := current.revision.bytes, PlanAll(TOML, current, batch).value;
    PlannedInsertionLines(current, batch);
    InsertionsPlaced(current, plan.insertions);
    var insertions := InsertionsOf(TOML, current, plan.insertions);
    forall r | r in plan.replacements ensures !IsInsertion(r) {
      BindingsOnLines(current, all);
      var x := ReplacementEdits(current, all, batch, r);
    }
    forall p: nat ensures InsertText(plan.replacements + insertions, p) == InsertText(insertions, p) {
      InsertTextJoin(plan.replacements, insertions, p);
    }
    SlotsByText(|doc|, plan.replacements + insertions, insertions, 0);
  }

  // ---------------------------------------------------------------------------
  // Counting keys

  function KeySet(located: seq<Located>): set<KeyPath> {
    set i | 0 <= i < |located| :: located[i].key
  }

  lemma {:induction false} KeySetSize(located: seq<Located>)
    requires Distinct(KeysOf(located))
    ensures |KeySet(located)| == |located|
  {
    if located != [] {
      var last := |located| - 1;
      var front := located[..last];
      forall i, j | 0 <= i < j < |front| ensures KeysOf(front)[i] != KeysOf(front)[j] {
        assert KeysOf(located)[i] != KeysOf(located)[j];
      }
      KeySetSize(front);
      assert KeySet(located) == KeySet(front) + {located[last].key};
    }
  }

  lemma {:induction false} KeptIsKeySet(located: seq<Located>, removed: set<KeyPath>)
    requires Distinct(KeysOf(located))
    ensures Kept(located, removed) == |KeySet(located) - removed|
  {
    if located != [] {
      var rest := located[1..];
      forall i, j | 0 <= i < j < |rest| ensures KeysOf(rest)[i] != KeysOf(rest)[j] {
        assert KeysOf(located)[i + 1] != KeysOf(located)[j + 1];
      }
      KeptIsKeySet(rest, removed);
      var key := located[0].key;
      assert KeySet(located) == KeySet(rest) + {key};
      if key in removed {
        assert KeySet(located) - removed == KeySet(rest) - removed;
      } else {
        assert KeySet(located) - removed == (KeySet(rest) - removed) + {key};
      }
    }
  }

  lemma {:induction false} PairsSize(located: seq<Located>)
    ensures |Pairs(located)| == |located|
  {
    if located != [] {
      PairsSize(located[1..]);
    }
  }

  lemma {:induction false} PairsMembers(located: seq<Located>, pair: Binding)
    requires pair in Pairs(located)
    ensures exists x :: x in located && Pair(x) == pair
  {
    if pair == Pair(located[0]) {
      assert located[0] in located;
    } else {
      PairsMembers(located[1..], pair);
    }
  }

  lemma SubsetOfSameSize<T>(a: set<T>, b: set<T>)
    requires a <= b && |b| <= |a|
    ensures a == b
  {
    assert |b - a| == |b| - |a|;
  }

  lemma KeysAreKeySet(current: Snapshot, all: seq<Located>)
    requires BindingsOfDocument(current, all)
    ensures current.overrides.Keys == KeySet(all)
  {
    forall key ensures key in current.overrides.Keys <==> key in KeySet(all) {
      if key in KeySet(all) {
        var i :| 0 <= i < |all| && all[i].key == key;
        assert KeysOf(all)[i] == key;
      }
    }
  }

  // ---------------------------------------------------------------------------
  // The frame

  /** Counting forces the new keys: the old ones that are not removed, and the
      inserted ones. */
  lemma NewKeysAreForced(current: Snapshot, all: seq<Located>, batch: seq<Edit>, after: Snapshot, all': seq<Located>)
    requires BindingsOfDocument(current, all) && BindingsOfDocument(after, all')
    requires Tally(all, Pairs(all'), EditedKeys(batch), RemovedKeys(current, batch), |NewKeys(current, batch)|)
    requires Realised(after, batch)
    ensures after.overrides.Keys == (current.overrides.Keys - RemovedKeys(current, batch)) + NewKeys(current, batch)
  {
    hide *;
    var removed, added := RemovedKeys(current, batch), NewKeys(current, batch);
    KeysAreKeySet(current, all);
    KeysAreKeySet(after, all');
    DistinctBindings(current, all);
    DistinctBindings(after, all');
    KeptIsKeySet(all, removed);
    KeySetSize(all');
    PairsSize(all');
    TallyBound(all, Pairs(all'), EditedKeys(batch), removed, |added|);
    NewKeysAreNew(current, batch);
    var required := (current.overrides.Keys - removed) + added;
    DisjointUnionSize(current.overrides.Keys - removed, added);
    forall key | key in required ensures key in after.overrides.Keys {
      RequiredKeyIsThere(current, all, batch, after, all', key);
    }
    SubsetOfSameSize(required, after.overrides.Keys);
  }

  lemma TallyBound(located: seq<Located>, bindings: seq<Binding>, edited: set<KeyPath>, removed: set<KeyPath>, slots: nat)
    requires Tally(located, bindings, edited, removed, slots)
    ensures |bindings| <= Kept(located, removed) + slots
  {}

  lemma NewKeysAreNew(current: Snapshot, batch: seq<Edit>)
    ensures current.overrides.Keys !! NewKeys(current, batch)
  {}

  lemma DisjointUnionSize<T>(a: set<T>, b: set<T>)
    requires a !! b
    ensures |a + b| == |a| + |b|
  {}

  lemma DistinctBindings(current: Snapshot, all: seq<Located>)
    requires BindingsOfDocument(current, all)
    ensures Distinct(KeysOf(all))
  {}

  lemma RequiredKeyIsThere(current: Snapshot, all: seq<Located>, batch: seq<Edit>, after: Snapshot, all': seq<Located>,
                           key: KeyPath)
    requires BindingsOfDocument(current, all) && BindingsOfDocument(after, all')
    requires Tally(all, Pairs(all'), EditedKeys(batch), RemovedKeys(current, batch), |NewKeys(current, batch)|)
    requires Realised(after, batch)
    requires key in (current.overrides.Keys - RemovedKeys(current, batch)) + NewKeys(current, batch)
    ensures key in after.overrides.Keys
    ensures key !in EditedKeys(batch) ==> after.ValueAt(key) == current.ValueAt(key)
  {
    hide BindingsOfDocument, EntryOf;
    if key in EditedKeys(batch) {
      var k :| 0 <= k < |batch| && batch[k].key == key;
      assert Same(after.ValueAt(batch[k].key), batch[k].pending);
    } else {
      var x := BindingOfEntry(current, all, key);
      assert Pair(x) in Pairs(all');
      PairsMembers(all', Pair(x));
      var y :| y in all' && Pair(y) == Pair(x);
      EntryOfBinding(after, all', y);
      EntryValue(current, x);
      EntryValue(after, y);
    }
  }

  lemma EntryValue(current: Snapshot, x: Located)
    ensures EntryOf(current.revision.bytes, x).value == x.value
  {}

  lemma ParsedBindings(snapshot: Snapshot) returns (all: seq<Located>)
    requires Parse(snapshot.revision.bytes) == Some(snapshot.overrides)
    ensures BindingsOfDocument(snapshot, all)
  {
    all := Locate(snapshot.revision.bytes, 0, []).value;
  }

  lemma BatchIsInFragment(edits: seq<Edit>)
    requires Normalize(TOML, edits).Some?
    ensures FragmentBatch(Normalize(TOML, edits).value)
  {
    hide Parse, Print;
    var batch := Normalize(TOML, edits).value;
    forall k | 0 <= k < |batch| && batch[k].pending.Some? ensures InFragment(batch[k].pending.value) {
      assert NormalizeOne(TOML, edits[k]) == Some(batch[k]);
      LiteralInFragment(edits[k]);
    }
  }

  lemma LiteralInFragment(edit: Edit)
    requires NormalizeOne(TOML, edit).Some?
    ensures var pending := NormalizeOne(TOML, edit).value.pending;
      pending.Some? ==> InFragment(pending.value)
  {
    hide Parse, Print, MapOf, EntryOf, Locate;
    if edit.pending.Some? {
      var literal := ParseDocument(TOML, VALUE_PREFIX + TOML.encode(edit.pending.value), None).snapshot;
      var all := ParsedBindings(literal);
      var x := BindingOfEntry(literal, all, VALUE_KEY);
      LocatedAtStart(literal, all);
      LocatedInFragment(literal.revision.bytes, 0, [], x);
      EntryValue(literal, x);
    }
  }

  lemma LiteralBinding(literal: Snapshot, all: seq<Located>) returns (x: Located)
    requires Parse(literal.revision.bytes) == Some(literal.overrides)
    requires VALUE_KEY in literal.overrides && Locate(literal.revision.bytes, 0, []) == Some(all)
    ensures x in all && literal.ValueAt(VALUE_KEY) == Some(x.value)
  {
    hide EntryOf, Locate;
    var same := ParsedBindings(literal);
    ParsedOnce(literal, all, same);
    x := BindingOfEntry(literal, all, VALUE_KEY);
    EntryValue(literal, x);
  }

  lemma ParsedOnce(snapshot: Snapshot, all: seq<Located>, same: seq<Located>)
    requires Locate(snapshot.revision.bytes, 0, []) == Some(all) && BindingsOfDocument(snapshot, same)
    ensures BindingsOfDocument(snapshot, all)
  {}

  lemma PlannedTally(current: Snapshot, all: seq<Located>, batch: seq<Edit>, all': seq<Located>)
    requires Planned(current, all, batch)
    requires Locate(Substituted(current.revision.bytes, PlannedReplacements(current, batch), 0), 0, []) == Some(all')
    ensures Tally(all, Pairs(all'), EditedKeys(batch), RemovedKeys(current, batch), |NewKeys(current, batch)|)
  {
    hide *;
    PlannedParts(current, all, batch);
    var doc, rs := current.revision.bytes, PlannedReplacements(current, batch);
    PlanIsLineWise(current, all, batch);
    BindingsOnLines(current, all);
    LocatedAtStart(current, all);
    LocateGivesBindings(Substituted(doc, rs, 0), 0, []);
    WholeSuffix(Substituted(doc, rs, 0), all);
    PatchedTally(doc, all, rs, EditedKeys(batch), RemovedKeys(current, batch), 0, []);
  }

  lemma PlannedParts(current: Snapshot, all: seq<Located>, batch: seq<Edit>)
    requires Planned(current, all, batch)
    ensures BindingsOfDocument(current, all) && PlanAll(TOML, current, batch).Some?
  {}

  lemma WholeSuffix(s: ByteString, all: seq<Located>)
    ensures s[0..] == s && SuffixOf(all, 0, all)
  {}

  /** Success binds every edited key to its pending value, or to nothing if it is
      removed, and leaves every other key with the value or absence it had. */
  lemma PatchOverlaysBatch(current: Snapshot, edits: seq<Edit>, schema: Schema, key: KeyPath)
    requires Parse(current.revision.bytes) == Some(current.overrides)
    requires PatchOf(TOML, current, edits, schema).status == Success
    ensures Normalize(TOML, edits).Some? && PatchOf(TOML, current, edits, schema).snapshot.Some?
    ensures var batch := Normalize(TOML, edits).value;
      var after := PatchOf(TOML, current, edits, schema).snapshot.value;
      && (forall k :: 0 <= k < |batch| && batch[k].key == key ==> after.ValueAt(key) == batch[k].pending)
      && (!KeyUsed(batch, key) ==> after.ValueAt(key) == current.ValueAt(key))
  {
    hide PatchOf, Parse, Normalize, PlanAll, Apply, PlannedReplacements, NewKeys, RemovedKeys, EditedKeys, Tally, Locate;
    SuccessParts(TOML, current, edits, schema);
    var batch := Normalize(TOML, edits).value;
    var after := PatchOf(TOML, current, edits, schema).snapshot.value;
    var all := ParsedBindings(current);
    BatchIsInFragment(edits);
    assert Planned(current, all, batch) by {
      hide BindingsOfDocument, FragmentBatch;
    }
    PlannedAll(current, batch);
    AppliedParts(TOML, current, PlannedReplacements(current, batch), batch);
    var all' := ParsedBindings(after);
    PlannedTally(current, all, batch, all');
    NewKeysAreForced(current, all, batch, after, all');
    if !KeyUsed(batch, key) {
      UneditedKey(current, batch, key);
      if key in current.overrides {
        RequiredKeyIsThere(current, all, batch, after, all', key);
      }
    }
  }

  lemma PlannedAll(current: Snapshot, batch: seq<Edit>)
    requires PlanAll(TOML, current, batch).Some?
    ensures AllReplacements(TOML, current, PlanAll(TOML, current, batch).value) == PlannedReplacements(current, batch)
  {}

  lemma UneditedKey(current: Snapshot, batch: seq<Edit>, key: KeyPath)
    requires !KeyUsed(batch, key)
    ensures key !in EditedKeys(batch) && key !in RemovedKeys(current, batch) && key !in NewKeys(current, batch)
  {}
}
