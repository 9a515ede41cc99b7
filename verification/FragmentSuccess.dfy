/** Exactly when a patch of a fragment document succeeds, in terms of the document
    and the edits alone. */
module FragmentSuccess {
  import opened Bytes
  import opened Splice
  import opened SpliceSize
  import opened Documents
  import opened Patch
  import opened PatchProperties
  import opened Fragment
  import opened FragmentLines
  import opened FragmentFrame
  import opened FragmentTally
  import opened FragmentPlan
  import opened FragmentPatch
  import opened FragmentLiterals
  import opened FragmentInsertion
  import opened FragmentReading
  import opened FragmentItems
  import opened FragmentCandidate
  import opened FragmentOverlap
  import opened FragmentBindings

  // ---------------------------------------------------------------------------
  // The conditions

  /** No header of this table that the editor can find. */
  ghost predicate Headless(doc: ByteString, parent: KeyPath) {
    parent != [] && forall h: nat :: !Headed(doc, h, parent)
  }

  /** The table's header is the last line of the document. */
  ghost predicate HeadedLast(doc: ByteString, parent: KeyPath) {
    exists h: nat :: Headed(doc, h, parent) && NextLine(doc, h) == |doc|
  }

  /** The table will get a header of its own. */
  ghost predicate Fresh(current: Snapshot, batch: seq<Edit>, parent: KeyPath) {
    Receives(current, batch, parent) && Headless(current.revision.bytes, parent)
  }

  /** A table that receives a key has its header as the last line, and a table
      without a header that comes before it in the map's order receives one too. */
  ghost predicate Meets(current: Snapshot, batch: seq<Edit>, parent: KeyPath, other: KeyPath) {
    && Receives(current, batch, parent) && HeadedLast(current.revision.bytes, parent)
    && Fresh(current, batch, other) && PathLess(other, parent)
  }

  ghost predicate MeetsAtEnd(current: Snapshot, batch: seq<Edit>) {
    exists parent, other :: Meets(current, batch, parent, other)
  }

  /** The document's headers and the ones to come are distinct, and no key that will
      have a value is one of those tables or on the path to one. */
  ghost predicate AgreesAfter(current: Snapshot, batch: seq<Edit>) {
    var headers := HeadersFrom(current.revision.bytes, 0);
    && (forall parent :: Fresh(current, batch, parent) ==> parent !in headers)
    && forall key, parent :: After(current, batch, key).Some? && (parent in headers || Fresh(current, batch, parent)) ==>
         !(key <= parent)
  }

  /** The literals, and the document to come, are not too long. */
  ghost predicate FitsLimits(current: Snapshot, batch: seq<Edit>) {
    && (forall k :: 0 <= k < |batch| && batch[k].pending.Some? ==>
         |VALUE_PREFIX + Print(batch[k].pending.value)| <= MAXIMUM_DOCUMENT_BYTES)
    && (PlanAll(TOML, current, batch).Some? ==>
         |current.revision.bytes| + Growth(PlannedReplacements(current, batch)) <= MAXIMUM_DOCUMENT_BYTES)
  }

  /** Everything a caller can check before the call. */
  ghost predicate Editable(current: Snapshot, edits: seq<Edit>) {
    && !BadBatch(current, edits)
    && (forall k :: 0 <= k < |edits| ==> !Conflicting(current, edits[k]))
    && FitsLimits(current, edits)
    && AgreesAfter(current, edits)
    && !MeetsAtEnd(current, edits)
  }

  /** The schema accepts the document with the edits applied, if it is one. */
  ghost predicate AcceptsCandidate(current: Snapshot, edits: seq<Edit>, schema: Schema) {
    PlanAll(TOML, current, edits).Some? ==>
      var bytes := Substituted(current.revision.bytes, PlannedReplacements(current, edits), 0);
      Parse(bytes).Some? ==> Valid(Snapshot(current.path, Revision(true, bytes), Parse(bytes).value), schema)
  }

  // ---------------------------------------------------------------------------
  // Points and conditions

  lemma PointMeaning(current: Snapshot, parent: KeyPath)
    requires Parse(current.revision.bytes) == Some(current.overrides)
    ensures PointOf(TOML, current, parent).None? <==> Headless(current.revision.bytes, parent)
  {
    hide Parse, NextLine, PointFrom, Headed;
    InsertionPointMeaning(current, parent);
  }

  lemma LastPoint(current: Snapshot, parent: KeyPath)
    requires Parse(current.revision.bytes) == Some(current.overrides)
    ensures HeadedLast(current.revision.bytes, parent) && parent != [] ==>
      PointOf(TOML, current, parent) == Some(|current.revision.bytes|)
    ensures parent != [] && PointOf(TOML, current, parent) == Some(|current.revision.bytes|) ==>
      HeadedLast(current.revision.bytes, parent)
  {
    hide Parse, PointFrom;
    var doc := current.revision.bytes;
    InsertionPointMeaning(current, parent);
    if parent != [] && HeadedLast(doc, parent) {
      var h: nat :| Headed(doc, h, parent) && NextLine(doc, h) == |doc|;
      assert PointOf(TOML, current, parent).Some?;
      var i: nat :| Headed(doc, i, parent) && PointOf(TOML, current, parent).value == NextLine(doc, i);
      OneHeader(current, parent, h, i);
    }
  }

  /** A table has one header. */
  lemma OneHeader(current: Snapshot, parent: KeyPath, h: nat, i: nat)
    requires Parse(current.revision.bytes) == Some(current.overrides)
    requires HeaderAt(current.revision.bytes, h, parent) && HeaderAt(current.revision.bytes, i, parent)
    ensures h == i
  {
    hide Locate, NextLine, HeadersFrom, Classify;
    var doc := current.revision.bytes;
    if h < i {
      TwoHeaders(doc, 0, h, i, parent);
    } else if i < h {
      TwoHeaders(doc, 0, i, h, parent);
    }
  }

  lemma {:induction false} HeaderListed(doc: ByteString, from: nat, h: nat, parent: KeyPath)
    requires from <= h < |doc| && LineStart(doc, from) && HeaderAt(doc, h, parent)
    ensures parent in HeadersFrom(doc, from)
    decreases |doc| - from
  {
    hide NextLine, LineStart, Classify, HeadersFrom;
    NextLineInside(doc, from);
    HeadersStep(doc, from);
    if from < h {
      StartsAfter(doc, from, h);
      HeaderListed(doc, NextLine(doc, from), h, parent);
    }
  }

  lemma {:induction false} TwoHeaders(doc: ByteString, from: nat, h: nat, i: nat, parent: KeyPath)
    requires from <= h < i < |doc| && LineStart(doc, from) && HeaderAt(doc, h, parent) && HeaderAt(doc, i, parent)
    ensures !Distinct(HeadersFrom(doc, from))
    decreases |doc| - from
  {
    hide NextLine, LineStart, Classify, HeadersFrom;
    NextLineInside(doc, from);
    HeadersStep(doc, from);
    var rest := HeadersFrom(doc, NextLine(doc, from));
    StartsAfter(doc, from, i);
    if from < h {
      StartsAfter(doc, from, h);
      TwoHeaders(doc, NextLine(doc, from), h, i, parent);
      RepeatedLater(HeaderOf(Classify(doc[from..NextLine(doc, from)])), rest);
    } else {
      HeaderListed(doc, NextLine(doc, from), i, parent);
      RepeatedFirst(parent, rest);
    }
  }

  lemma RepeatedLater(front: seq<KeyPath>, rest: seq<KeyPath>)
    requires !Distinct(rest)
    ensures !Distinct(front + rest)
  {
    var i, j :| 0 <= i < j < |rest| && rest[i] == rest[j];
    assert (front + rest)[|front| + i] == (front + rest)[|front| + j];
  }

  lemma RepeatedFirst(first: KeyPath, rest: seq<KeyPath>)
    requires first in rest
    ensures !Distinct([first] + rest)
  {
    var j :| 0 <= j < |rest| && rest[j] == first;
    assert ([first] + rest)[0] == ([first] + rest)[j + 1];
  }

  // ---------------------------------------------------------------------------
  // The candidate as a document

  function CandidateOf(current: Snapshot, batch: seq<Edit>): ByteString
    requires PlanAll(TOML, current, batch).Some?
  {
    Substituted(current.revision.bytes, PlannedReplacements(current, batch), 0)
  }

  lemma StartIsRoot(doc: ByteString)
    ensures InSection(doc, 0, []) && LineStart(doc, 0)
  {
    hide Classify;
    forall h: nat, parent | HeaderAt(doc, h, parent) && NextLine(doc, h) == 0 ensures false {
      HeaderInside(doc, h, parent);
    }
  }

  lemma HeaderInside(doc: ByteString, h: nat, parent: KeyPath)
    requires HeaderAt(doc, h, parent)
    ensures h < NextLine(doc, h)
  {}

  /** Every candidate is a document line by line; this is what it binds and which
      headers it has. */
  lemma CandidateLocated(current: Snapshot, all: seq<Located>, batch: seq<Edit>) returns (all': seq<Located>)
    requires LiteralPlan(current, all, batch)
    ensures PlanAll(TOML, current, batch).Some?
    ensures Locate(CandidateOf(current, batch), 0, []) == Some(all')
    ensures Pairs(all') == Expected(current, batch, PlannedInsertions(current, batch), 0, []).bindings
    ensures HeadersFrom(CandidateOf(current, batch), 0)
         == HeadersFrom(current.revision.bytes, 0) + NewHeaders(current, PlannedInsertions(current, batch))
  {
    hide *;
    var doc := current.revision.bytes;
    PlanParts(current, all, batch);
    LocatedAtStart(current, all);
    StartIsRoot(doc);
    WholeSuffix(doc, all);
    CandidateReads(current, all, batch, 0, []);
    CandidateIs(current, batch);
    var bytes := CandidateOf(current, batch);
    ReadIsBindings(bytes, []);
    ReadIsHeaders(bytes, []);
    LocateGivesBindings(bytes, 0, []);
    WholeSuffix(bytes, all);
    ExpectedHeaders(current, batch, PlannedInsertions(current, batch), 0, []);
    all' := Locate(bytes, 0, []).value;
  }

  lemma CandidateIs(current: Snapshot, batch: seq<Edit>)
    requires PlanAll(TOML, current, batch).Some?
    ensures CandidateOf(current, batch) == Substituted(current.revision.bytes, PlannedReplacements(current, batch), 0)
  {}

  // ---------------------------------------------------------------------------
  // The keys to come

  function KeysAfter(current: Snapshot, batch: seq<Edit>): set<KeyPath> {
    (current.overrides.Keys - RemovedKeys(current, batch)) + NewKeys(current, batch)
  }

  /** A key will have a value exactly when the old keys, less the removed ones, and the
      new ones hold it. */
  lemma KeysAfterMeaning(current: Snapshot, batch: seq<Edit>, key: KeyPath)
    requires !BadKey(batch)
    ensures key in KeysAfter(current, batch) <==> After(current, batch, key).Some?
  {
    if k :| 0 <= k < |batch| && batch[k].key == key {
      AfterEdit(current, batch, k);
      forall j | 0 <= j < |batch| && batch[j].key == key ensures j == k {
        OneEditPerKey(batch, j, k);
      }
    } else {
      AfterOthers(current, batch, key);
    }
  }

  /** A new key is a row of its table. */
  lemma NewKeyIsRow(current: Snapshot, batch: seq<Edit>, key: KeyPath, value: Value) returns (parent: KeyPath, row: Row)
    requires !BadKey(batch) && After(current, batch, key) == Some(value) && key !in current.overrides
    ensures key == parent + [row.0] && row.1 == value && row in RowsOf(current, batch, parent)
    ensures Receives(current, batch, parent)
  {
    if !KeyUsed(batch, key) {
      AfterOthers(current, batch, key);
      assert false;
    }
    var k: nat :| k < |batch| && batch[k].key == key;
    AfterEdit(current, batch, k);
    assert batch[k].key != [];
    parent, row := key[..|key| - 1], (key[|key| - 1], value);
    assert key == parent + [row.0];
    assert Adds(current, batch[k], parent);
    RowsMeaning(current, batch, parent, row.0, value);
  }

  /** Unless insertions meet at the end, every value to come is bound. */
  lemma BindsWhatItShould(current: Snapshot, all: seq<Located>, batch: seq<Edit>, key: KeyPath, value: Value)
    requires LiteralPlan(current, all, batch) && !MeetsAtEnd(current, batch)
    requires After(current, batch, key) == Some(value)
    ensures PlanAll(TOML, current, batch).Some?
    ensures (key, value) in Expected(current, batch, PlannedInsertions(current, batch), 0, []).bindings
  {
    hide *;
    var doc := current.revision.bytes;
    PlanParts(current, all, batch);
    LocatedAtStart(current, all);
    var insertions := PlannedInsertions(current, batch);
    if key in current.overrides {
      var x := BindingOfEntry(current, all, key);
      ExpectedHoldsKept(current, batch, insertions, 0, [], x, value);
    } else {
      var parent, row := NewKeyIsRow(current, batch, key, value);
      TablesOfPlan(current, all, batch);
      TablesParts(current, batch, insertions);
      StartIsRoot(doc);
      PointInside(current, parent);
      var point := PointOf(TOML, current, parent);
      if point.Some? && point.value < |doc| {
        ExpectedHoldsRow(current, batch, insertions, 0, [], parent, row);
      } else {
        var section := FinalSection(doc, 0, []);
        FinalInSection(doc, 0, []);
        if point.Some? {
          PointInSection(current, |doc|, section, parent);
          NothingMeets(current, batch, insertions, parent);
        }
        EndHoldsRow(current, batch, insertions, section, parent, row);
        ExpectedHoldsEnd(current, batch, insertions, 0, [], (key, value));
      }
    }
  }

  lemma NothingMeets(current: Snapshot, batch: seq<Edit>, insertions: Insertions, parent: KeyPath)
    requires Parse(current.revision.bytes) == Some(current.overrides) && !MeetsAtEnd(current, batch)
    requires Receives(current, batch, parent)
    requires forall other :: HasTable(insertions, other) <==> Receives(current, batch, other)
    requires PointOf(TOML, current, parent) == Some(|current.revision.bytes|)
    ensures NoneBefore(current, insertions, parent)
  {
    hide Parse, PointOf, Receives, HasTable, Headless, HeadedLast;
    LastPoint(current, parent);
    forall other | HasTable(insertions, other) && PathLess(other, parent) ensures PointOf(TOML, current, other).Some? {
      PointMeaning(current, other);
      assert !Meets(current, batch, parent, other);
    }
  }

  // ---------------------------------------------------------------------------
  // Success

  /** Enough distinct keys, and no more bindings than keys, are distinct bindings. */
  lemma DistinctByCount(located: seq<Located>, keys: set<KeyPath>)
    requires |located| <= |keys| && keys <= KeySet(located)
    ensures Distinct(KeysOf(located)) && KeySet(located) == keys
  {
    KeySetBound(located);
    SubsetOfSameSize(keys, KeySet(located));
    forall i, j | 0 <= i < j < |located| ensures KeysOf(located)[i] != KeysOf(located)[j] {
      if located[i].key == located[j].key {
        RepeatedKey(located, i, j);
      }
    }
  }

  lemma {:induction false} KeySetBound(located: seq<Located>)
    ensures |KeySet(located)| <= |located|
  {
    if located != [] {
      var last := |located| - 1;
      KeySetBound(located[..last]);
      assert KeySet(located) == KeySet(located[..last]) + {located[last].key};
    }
  }

  lemma RepeatedKey(located: seq<Located>, i: nat, j: nat)
    requires i < j < |located| && located[i].key == located[j].key
    ensures |KeySet(located)| < |located|
  {
    var rest := located[..j] + located[j + 1..];
    KeySetBound(rest);
    forall key | key in KeySet(located) ensures key in KeySet(rest) {
      var k :| 0 <= k < |located| && located[k].key == key;
      var m := if k < j then k else if k == j then i else k - 1;
      assert rest[m].key == key;
    }
    forall key | key in KeySet(rest) ensures key in KeySet(located) {
      var m :| 0 <= m < |rest| && rest[m].key == key;
      assert located[if m < j then m else m + 1].key == key;
    }
    assert KeySet(rest) == KeySet(located);
  }

  /** The bindings of the candidate have exactly the keys to come, each once. */
  lemma CandidateKeys(current: Snapshot, all: seq<Located>, batch: seq<Edit>, all': seq<Located>)
    requires LiteralPlan(current, all, batch) && !MeetsAtEnd(current, batch) && PlanAll(TOML, current, batch).Some?
    requires Locate(CandidateOf(current, batch), 0, []) == Some(all')
    requires Pairs(all') == Expected(current, batch, PlannedInsertions(current, batch), 0, []).bindings
    ensures Distinct(KeysOf(all')) && KeySet(all') == KeysAfter(current, batch)
  {
    hide *;
    PlanParts(current, all, batch);
    CandidateIs(current, batch);
    PlannedTally(current, all, batch, all');
    TallyBound(all, Pairs(all'), EditedKeys(batch), RemovedKeys(current, batch), |NewKeys(current, batch)|);
    PairsSize(all');
    KeysAfterSize(current, all, batch);
    forall key | key in KeysAfter(current, batch) ensures key in KeySet(all') {
      KeysAfterMeaning(current, batch, key);
      var value := After(current, batch, key).value;
      BindsWhatItShould(current, all, batch, key, value);
      PairsMembers(all', (key, value));
      var x :| x in all' && Pair(x) == (key, value);
      KeyInSet(all', x);
    }
    DistinctByCount(all', KeysAfter(current, batch));
  }

  lemma KeyInSet(located: seq<Located>, x: Located)
    requires x in located
    ensures x.key in KeySet(located) && Pair(x) == (x.key, x.value)
  {}

  lemma KeysAfterSize(current: Snapshot, all: seq<Located>, batch: seq<Edit>)
    requires BindingsOfDocument(current, all)
    ensures |KeysAfter(current, batch)| == Kept(all, RemovedKeys(current, batch)) + |NewKeys(current, batch)|
  {
    hide BindingsOfDocument, Kept, RemovedKeys, NewKeys, KeySet;
    DistinctBindings(current, all);
    KeysAreKeySet(current, all);
    KeptIsKeySet(all, RemovedKeys(current, batch));
    NewKeysAreNew(current, batch);
    DisjointUnionSize(current.overrides.Keys - RemovedKeys(current, batch), NewKeys(current, batch));
  }

  /** Keys and headers to come agree exactly when the candidate's tables do. */
  lemma TablesAgreeAfter(current: Snapshot, all: seq<Located>, batch: seq<Edit>, all': seq<Located>)
    requires LiteralPlan(current, all, batch) && PlanAll(TOML, current, batch).Some?
    requires KeySet(all') == KeysAfter(current, batch)
    ensures TablesAgree(KeysOf(all'),
                        HeadersFrom(current.revision.bytes, 0) + NewHeaders(current, PlannedInsertions(current, batch)))
       <==> AgreesAfter(current, batch)
  {
    hide *;
    PlanParts(current, all, batch);
    TablesOfPlan(current, all, batch);
    var insertions := PlannedInsertions(current, batch);
    TablesParts(current, batch, insertions);
    NewHeadersMeaning(current, insertions);
    var headers, more := HeadersFrom(current.revision.bytes, 0), NewHeaders(current, insertions);
    HeadersDistinct(current);
    forall parent ensures parent in more <==> Fresh(current, batch, parent) {
      PointMeaning(current, parent);
      FreshParts(current, batch, parent);
    }
    forall key ensures key in KeySet(all') <==> After(current, batch, key).Some? {
      KeysAfterMeaning(current, batch, key);
    }
    AgreementOf(current, batch, all', headers, more);
  }

  lemma FreshParts(current: Snapshot, batch: seq<Edit>, parent: KeyPath)
    ensures Fresh(current, batch, parent) <==> Receives(current, batch, parent) && Headless(current.revision.bytes, parent)
  {}

  lemma HeadersDistinct(current: Snapshot)
    requires Parse(current.revision.bytes) == Some(current.overrides)
    ensures Distinct(HeadersFrom(current.revision.bytes, 0))
  {
    hide Locate, HeadersFrom;
  }

  lemma AgreementOf(current: Snapshot, batch: seq<Edit>, all': seq<Located>, headers: seq<KeyPath>, more: seq<KeyPath>)
    requires headers == HeadersFrom(current.revision.bytes, 0) && Distinct(headers) && Distinct(more)
    requires forall parent :: parent in more <==> Fresh(current, batch, parent)
    requires forall key :: key in KeySet(all') <==> After(current, batch, key).Some?
    ensures TablesAgree(KeysOf(all'), headers + more) <==> AgreesAfter(current, batch)
  {
    hide HeadersFrom, Fresh, After;
    var all := headers + more;
    DistinctTogether(headers, more);
    if AgreesAfter(current, batch) {
      forall i, j | 0 <= i < |KeysOf(all')| && 0 <= j < |all| ensures !(KeysOf(all')[i] <= all[j]) {
        assert KeysOf(all')[i] in KeySet(all');
        assert all[j] in headers || all[j] in more;
      }
    }
    if TablesAgree(KeysOf(all'), all) {
      forall key, parent | After(current, batch, key).Some? && (parent in headers || Fresh(current, batch, parent))
        ensures !(key <= parent)
      {
        var i :| 0 <= i < |all'| && all'[i].key == key;
        assert KeysOf(all')[i] == key;
        assert parent in all;
        var j :| 0 <= j < |all| && all[j] == parent;
      }
    }
  }

  /** A candidate that parses binds exactly what the edits ask for. */
  lemma CandidateParses(current: Snapshot, all: seq<Located>, batch: seq<Edit>)
    requires LiteralPlan(current, all, batch) && !MeetsAtEnd(current, batch) && AgreesAfter(current, batch)
    ensures PlanAll(TOML, current, batch).Some? && Parse(CandidateOf(current, batch)).Some?
    ensures var bytes := CandidateOf(current, batch);
      Realised(Snapshot(current.path, Revision(true, bytes), Parse(bytes).value), batch)
  {
    hide *;
    PlanParts(current, all, batch);
    var bytes := CandidateOf(current, batch);
    var all' := CandidateLocated(current, all, batch);
    CandidateKeys(current, all, batch, all');
    TablesAgreeAfter(current, all, batch, all');
    ParsesWhen(bytes, all');
    var after := Snapshot(current.path, Revision(true, bytes), Parse(bytes).value);
    ParsedBindingsAre(after, all');
    forall k | 0 <= k < |batch| ensures Same(after.ValueAt(batch[k].key), batch[k].pending) {
      RealisedAt(current, all, batch, after, all', k);
    }
    RealisedBy(after, batch);
  }

  lemma RealisedBy(after: Snapshot, batch: seq<Edit>)
    requires forall k :: 0 <= k < |batch| ==> Same(after.ValueAt(batch[k].key), batch[k].pending)
    ensures Realised(after, batch)
  {}

  lemma ParsesWhen(bytes: ByteString, all': seq<Located>)
    requires Locate(bytes, 0, []) == Some(all') && Distinct(KeysOf(all')) && TablesAgree(KeysOf(all'), HeadersFrom(bytes, 0))
    ensures Parse(bytes) == Some(MapOf(bytes, all'))
  {}

  lemma ParsedBindingsAre(after: Snapshot, all': seq<Located>)
    requires Locate(after.revision.bytes, 0, []) == Some(all') && Parse(after.revision.bytes) == Some(after.overrides)
    ensures BindingsOfDocument(after, all') && TablesAgree(KeysOf(all'), HeadersFrom(after.revision.bytes, 0))
  {}

  lemma RealisedAt(current: Snapshot, all: seq<Located>, batch: seq<Edit>, after: Snapshot, all': seq<Located>, k: nat)
    requires LiteralPlan(current, all, batch) && !MeetsAtEnd(current, batch) && PlanAll(TOML, current, batch).Some?
    requires BindingsOfDocument(after, all') && KeySet(all') == KeysAfter(current, batch) && k < |batch|
    requires Pairs(all') == Expected(current, batch, PlannedInsertions(current, batch), 0, []).bindings
    ensures Same(after.ValueAt(batch[k].key), batch[k].pending)
  {
    hide *;
    PlanParts(current, all, batch);
    var key := batch[k].key;
    AfterEdit(current, batch, k);
    KeysAfterMeaning(current, batch, key);
    KeysAreKeySet(after, all');
    LiteralIsNoNaN(batch, k);
    match batch[k].pending {
      case None =>
        NoValue(after, key);
      case Some(value) =>
        BindsWhatItShould(current, all, batch, key, value);
        PairsMembers(all', (key, value));
        var y :| y in all' && Pair(y) == (key, value);
        KeyInSet(all', y);
        CurrentValue(after, all', y);
        SameNotNaN(after.ValueAt(key), batch[k].pending);
    }
  }

  lemma NoValue(after: Snapshot, key: KeyPath)
    requires key !in after.overrides.Keys
    ensures Same(after.ValueAt(key), None)
  {}

  lemma SameNotNaN(a: Option<Value>, b: Option<Value>)
    requires a == b && b != Some(Float(NaN))
    ensures Same(a, b)
  {}

  lemma LiteralIsNoNaN(batch: seq<Edit>, k: nat)
    requires LiteralEdits(batch) && k < |batch|
    ensures batch[k].pending != Some(Float(NaN))
  {}

  // ---------------------------------------------------------------------------
  // Refusal

  /** When insertions meet at the end, a key of the last table is bound nowhere. */
  lemma MeetingIsNotRealised(current: Snapshot, all: seq<Located>, batch: seq<Edit>, after: Snapshot, all': seq<Located>)
    requires LiteralPlan(current, all, batch) && PlanAll(TOML, current, batch).Some? && MeetsAtEnd(current, batch)
    requires BindingsOfDocument(after, all')
    requires Pairs(all') == Expected(current, batch, PlannedInsertions(current, batch), 0, []).bindings
    ensures !Realised(after, batch)
  {
    hide *;
    PlanParts(current, all, batch);
    var parent, other := MeetingTables(current, batch);
    var key, value, k := ReceivedKey(current, batch, parent);
    if Realised(after, batch) {
      RealisedKey(after, batch, k);
      var y := BindingOfEntry(after, all', parent + [key]);
      CurrentValue(after, all', y);
      KeyInSet(all', y);
      PairIsMember(all', y);
      MeetingLosesKey(current, all, batch, parent, other, key, value);
      assert false;
    }
  }

  lemma MeetingTables(current: Snapshot, batch: seq<Edit>) returns (parent: KeyPath, other: KeyPath)
    requires MeetsAtEnd(current, batch)
    ensures Meets(current, batch, parent, other) && Receives(current, batch, parent)
  {
    hide Receives, HeadedLast, Headless;
    parent, other :| Meets(current, batch, parent, other);
  }

  lemma ReceivedKey(current: Snapshot, batch: seq<Edit>, parent: KeyPath) returns (key: Key, value: Value, k: nat)
    requires Receives(current, batch, parent)
    ensures k < |batch| && batch[k].key == parent + [key] && batch[k].pending == Some(value)
    ensures parent + [key] !in current.overrides
  {
    k :| k < |batch| && Adds(current, batch[k], parent);
    AddsKey(current, batch[k], parent);
    key, value := batch[k].key[|batch[k].key| - 1], batch[k].pending.value;
  }

  lemma RealisedKey(after: Snapshot, batch: seq<Edit>, k: nat)
    requires Realised(after, batch) && k < |batch| && batch[k].pending.Some?
    ensures batch[k].key in after.overrides && after.ValueAt(batch[k].key) == batch[k].pending
  {
    assert Same(after.ValueAt(batch[k].key), batch[k].pending);
  }

  lemma {:induction false} PairIsMember(located: seq<Located>, x: Located)
    requires x in located
    ensures Pair(x) in Pairs(located)
  {
    if x != located[0] {
      PairIsMember(located[1..], x);
    }
  }

  lemma MeetingLosesKey(current: Snapshot, all: seq<Located>, batch: seq<Edit>, parent: KeyPath, other: KeyPath,
                        key: Key, value: Value)
    requires LiteralPlan(current, all, batch) && PlanAll(TOML, current, batch).Some?
    requires Meets(current, batch, parent, other) && parent + [key] !in current.overrides
    ensures (parent + [key], value) !in Expected(current, batch, PlannedInsertions(current, batch), 0, []).bindings
  {
    hide *;
    var doc, b := current.revision.bytes, (parent + [key], value);
    var insertions, section := PlannedInsertions(current, batch), FinalSection(current.revision.bytes, 0, []);
    PlanParts(current, all, batch);
    LocatedAtStart(current, all);
    MeetingPoints(current, batch, parent, other);
    TablesOfPlan(current, all, batch);
    TablesParts(current, batch, insertions);
    StartIsRoot(doc);
    FinalInSection(doc, 0, []);
    PointInSection(current, |doc|, section, parent);
    forall table | PointOf(TOML, current, table) == Some(|doc|) ensures table == parent {
      PointInSection(current, |doc|, section, table);
    }
    EndLosesRow(current, batch, insertions, section, parent, other, key, value);
    if b in Expected(current, batch, insertions, 0, []).bindings {
      var from, row := ExpectedOrigin(current, batch, insertions, 0, [], b);
      if x :| x in all && x.key == b.0 {
        CurrentValue(current, all, x);
        assert false;
      } else {
        SameParent(from, row.0, parent, key);
        assert false;
      }
    }
  }

  lemma MeetingPoints(current: Snapshot, batch: seq<Edit>, parent: KeyPath, other: KeyPath)
    requires Parse(current.revision.bytes) == Some(current.overrides) && Meets(current, batch, parent, other)
    ensures PointOf(TOML, current, parent) == Some(|current.revision.bytes|) && PointOf(TOML, current, other).None?
    ensures Receives(current, batch, other) && PathLess(other, parent)
  {
    hide Parse, PointOf, Receives, Headless, HeadedLast;
    RootIsLeast(other, parent);
    LastPoint(current, parent);
    PointMeaning(current, other);
  }

  lemma RootIsLeast(other: KeyPath, parent: KeyPath)
    requires PathLess(other, parent)
    ensures parent != []
  {}

  // ---------------------------------------------------------------------------
  // The theorem

  lemma LiteralsFit(edits: seq<Edit>)
    requires LiteralEdits(edits)
    requires forall k :: 0 <= k < |edits| && edits[k].pending.Some? ==>
      |VALUE_PREFIX + Print(edits[k].pending.value)| <= MAXIMUM_DOCUMENT_BYTES
    ensures Normalize(TOML, edits) == Some(edits)
  {
    hide NormalizeOne, Literal, Print;
    if Normalize(TOML, edits).None? {
      var i :| 0 <= i < |edits| && NormalizeOne(TOML, edits[i]).None?;
      NormalizesLiteral(edits[i]);
    } else {
      NormalIsSame(edits);
    }
  }

  lemma NormalIsSame(edits: seq<Edit>)
    requires LiteralEdits(edits) && Normalize(TOML, edits).Some?
    ensures Normalize(TOML, edits) == Some(edits)
    ensures forall k :: 0 <= k < |edits| && edits[k].pending.Some? ==>
      |VALUE_PREFIX + Print(edits[k].pending.value)| <= MAXIMUM_DOCUMENT_BYTES
  {
    hide NormalizeOne, Literal, Print;
    var batch := Normalize(TOML, edits).value;
    forall k | 0 <= k < |edits|
      ensures batch[k] == edits[k]
      ensures edits[k].pending.Some? ==> |VALUE_PREFIX + Print(edits[k].pending.value)| <= MAXIMUM_DOCUMENT_BYTES
    {
      assert NormalizeOne(TOML, edits[k]) == Some(batch[k]);
      NormalizedLiteral(edits[k]);
      NormalizedFits(edits[k]);
    }
    assert batch == edits;
  }

  lemma NormalizedFits(edit: Edit)
    requires NormalizeOne(TOML, edit).Some?
    ensures edit.pending.Some? ==> |VALUE_PREFIX + Print(edit.pending.value)| <= MAXIMUM_DOCUMENT_BYTES
  {
    hide Parse, Print;
  }

  /** Without conflicts, planning and splicing go through, and what is left is the
      candidate's own check. */
  lemma PlansAndSplices(current: Snapshot, edits: seq<Edit>, schema: Schema)
    requires Parse(current.revision.bytes) == Some(current.overrides) && LiteralEdits(edits)
    requires Normalize(TOML, edits) == Some(edits) && Valid(current, schema)
    requires !BadBatch(current, edits) && forall k :: 0 <= k < |edits| ==> !Conflicting(current, edits[k])
    ensures PlanAll(TOML, current, edits).Some? && PlanAll(TOML, current, edits).value.conflicts == []
    ensures PatchOf(TOML, current, edits, schema)
         == Checked(current, schema, Apply(TOML, current, PlannedReplacements(current, edits), edits))
  {
    hide PlanAll, Apply, Parse, AllReplacements, DiagnosticsOf, Normalize, Conflicting;
    PlanVerdict(TOML, current, edits);
    CollectNothing(ConflictFrom(current), edits);
    PlannedAll(current, edits);
  }

  /** The end of a patch: the schema's verdict on the candidate. */
  ghost function Checked(current: Snapshot, schema: Schema, outcome: Outcome): SaveResult {
    match outcome
    case Failure(code) => Refused(UnsupportedPatch, [Failed(code)])
    case Applied(snapshot) =>
      var notes := DiagnosticsOf(snapshot, schema);
      if HasErrors(notes) then Refused(Invalid, notes) else SaveResult(Success, Some(snapshot), [], notes)
  }

  lemma PlanIsLiteral(current: Snapshot, edits: seq<Edit>) returns (all: seq<Located>)
    requires Parse(current.revision.bytes) == Some(current.overrides) && LiteralEdits(edits)
    requires PlanAll(TOML, current, edits).Some? && PlanAll(TOML, current, edits).value.conflicts == []
    ensures LiteralPlan(current, all, edits)
  {
    hide PlanAll, Parse, BindingsOfDocument;
    all := ParsedBindings(current);
    LiteralsInFragment(edits);
  }

  lemma LiteralsInFragment(edits: seq<Edit>)
    requires LiteralEdits(edits)
    ensures FragmentBatch(edits)
  {}

  lemma CandidateSize(current: Snapshot, all: seq<Located>, batch: seq<Edit>)
    requires LiteralPlan(current, all, batch)
    ensures PlanAll(TOML, current, batch).Some?
    ensures WellFormed(|current.revision.bytes|, PlannedReplacements(current, batch))
    ensures |CandidateOf(current, batch)| == |current.revision.bytes| + Growth(PlannedReplacements(current, batch))
  {
    hide *;
    PlanParts(current, all, batch);
    PlanNeverOverlaps(current, all, batch);
    SubstitutedSize(current.revision.bytes, PlannedReplacements(current, batch));
    CandidateIs(current, batch);
  }

  /** The candidate's check passes exactly when it is not too long, its tables agree
      and its insertions do not meet. */
  lemma CandidateVerdict(current: Snapshot, all: seq<Located>, batch: seq<Edit>)
    requires LiteralPlan(current, all, batch)
    ensures PlanAll(TOML, current, batch).Some?
    ensures var outcome := Apply(TOML, current, PlannedReplacements(current, batch), batch);
      && (outcome.Applied? <==>
           && |current.revision.bytes| + Growth(PlannedReplacements(current, batch)) <= MAXIMUM_DOCUMENT_BYTES
           && AgreesAfter(current, batch) && !MeetsAtEnd(current, batch))
      && (outcome.Applied? ==>
           && Parse(CandidateOf(current, batch)).Some?
           && outcome.snapshot == Snapshot(current.path, Revision(true, CandidateOf(current, batch)),
                                           Parse(CandidateOf(current, batch)).value))
  {
    hide *;
    PlanParts(current, all, batch);
    CandidateSize(current, all, batch);
    CandidateIs(current, batch);
    ApplyParts(current, PlannedReplacements(current, batch), batch);
    var outcome := Apply(TOML, current, PlannedReplacements(current, batch), batch);
    if AgreesAfter(current, batch) && !MeetsAtEnd(current, batch) {
      CandidateParses(current, all, batch);
    }
    if outcome.Applied? {
      var after := outcome.snapshot;
      var all' := CandidateLocated(current, all, batch);
      ParsedBindingsAre(after, all');
      if MeetsAtEnd(current, batch) {
        MeetingIsNotRealised(current, all, batch, after, all');
      } else {
        CandidateKeys(current, all, batch, all');
        TablesAgreeAfter(current, all, batch, all');
      }
    }
  }

  lemma ApplyParts(current: Snapshot, rs: seq<Replacement>, batch: seq<Edit>)
    requires WellFormed(|current.revision.bytes|, rs)
    ensures var bytes := Substituted(current.revision.bytes, rs, 0);
      var outcome := Apply(TOML, current, rs, batch);
      && (outcome.Applied? <==>
           && |bytes| <= MAXIMUM_DOCUMENT_BYTES && Parse(bytes).Some?
           && Realised(Snapshot(current.path, Revision(true, bytes), Parse(bytes).value), batch))
      && (outcome.Applied? ==>
           && outcome.snapshot == Snapshot(current.path, Revision(true, bytes), Parse(bytes).value)
           && Realised(outcome.snapshot, batch) && outcome.snapshot.revision.bytes == bytes
           && Parse(bytes) == Some(outcome.snapshot.overrides))
  {
    hide Parse, Realised, Substituted, WellFormed;
  }

  /** A patch of a fragment document succeeds exactly when the schema accepts the
      document and the candidate, no edit has a bad key, no edit conflicts, the
      literals and the result are not too long, the keys and tables to come agree,
      and no table whose header is the last line receives a key together with a
      smaller table that has no header. */
  lemma SuccessExactly(current: Snapshot, edits: seq<Edit>, schema: Schema)
    requires Parse(current.revision.bytes) == Some(current.overrides) && LiteralEdits(edits)
    ensures PatchOf(TOML, current, edits, schema).status == Success <==>
      Valid(current, schema) && Editable(current, edits) && AcceptsCandidate(current, edits, schema)
  {
    hide *;
    EditableParts(current, edits);
    if Valid(current, schema) && Editable(current, edits) {
      LiteralsFit(edits);
      VerdictOf(current, edits, schema);
    } else if PatchOf(TOML, current, edits, schema).status == Success {
      SuccessParts(TOML, current, edits, schema);
      SuccessMeansValidBefore(current, edits, schema);
      NormalIsSame(edits);
      NoConflictMeansSeen(TOML, current, edits);
      SeenIsNoConflict(current, edits);
      VerdictOf(current, edits, schema);
    }
  }

  lemma SeenIsNoConflict(current: Snapshot, edits: seq<Edit>)
    requires forall i :: 0 <= i < |edits| && Changes(current, edits[i]) ==>
      Same(current.ValueAt(edits[i].key), edits[i].baseline)
    ensures forall k :: 0 <= k < |edits| ==> !Conflicting(current, edits[k])
  {}

  lemma SuccessMeansValidBefore(current: Snapshot, edits: seq<Edit>, schema: Schema)
    requires PatchOf(TOML, current, edits, schema).status == Success
    ensures Valid(current, schema)
  {
    hide PlanAll, Normalize, Apply;
  }

  lemma EditableParts(current: Snapshot, edits: seq<Edit>)
    ensures Editable(current, edits) <==>
      && !BadBatch(current, edits) && (forall k :: 0 <= k < |edits| ==> !Conflicting(current, edits[k]))
      && (forall k :: 0 <= k < |edits| && edits[k].pending.Some? ==>
           |VALUE_PREFIX + Print(edits[k].pending.value)| <= MAXIMUM_DOCUMENT_BYTES)
      && (PlanAll(TOML, current, edits).Some? ==>
           |current.revision.bytes| + Growth(PlannedReplacements(current, edits)) <= MAXIMUM_DOCUMENT_BYTES)
      && AgreesAfter(current, edits) && !MeetsAtEnd(current, edits)
  {
    hide BadBatch, Conflicting, AgreesAfter, MeetsAtEnd, PlanAll, PlannedReplacements, Print;
  }

  /** The verdict once nothing is wrong with the batch itself. */
  lemma VerdictOf(current: Snapshot, edits: seq<Edit>, schema: Schema)
    requires Parse(current.revision.bytes) == Some(current.overrides) && LiteralEdits(edits)
    requires Normalize(TOML, edits) == Some(edits) && Valid(current, schema)
    requires !BadBatch(current, edits) && forall k :: 0 <= k < |edits| ==> !Conflicting(current, edits[k])
    ensures PatchOf(TOML, current, edits, schema).status == Success <==>
      && (PlanAll(TOML, current, edits).Some? ==>
           |current.revision.bytes| + Growth(PlannedReplacements(current, edits)) <= MAXIMUM_DOCUMENT_BYTES)
      && AgreesAfter(current, edits) && !MeetsAtEnd(current, edits) && AcceptsCandidate(current, edits, schema)
  {
    hide *;
    PlansAndSplices(current, edits, schema);
    var all := PlanIsLiteral(current, edits);
    CandidateVerdict(current, all, edits);
    var outcome := Apply(TOML, current, PlannedReplacements(current, edits), edits);
    CheckedStatus(current, schema, outcome);
    CandidateIs(current, edits);
    AcceptsParts(current, edits, schema);
  }

  lemma CheckedStatus(current: Snapshot, schema: Schema, outcome: Outcome)
    ensures Checked(current, schema, outcome).status == Success <==> outcome.Applied? && Valid(outcome.snapshot, schema)
  {}

  lemma AcceptsParts(current: Snapshot, edits: seq<Edit>, schema: Schema)
    requires PlanAll(TOML, current, edits).Some?
    ensures var bytes := CandidateOf(current, edits);
      AcceptsCandidate(current, edits, schema) <==>
        (Parse(bytes).Some? ==> Valid(Snapshot(current.path, Revision(true, bytes), Parse(bytes).value), schema))
  {
    hide Parse, PlanAll, Valid, PlannedReplacements, Substituted;
  }

  /** Edits of one table never meet, so nor does a single edit. */
  lemma OneTableNeverMeets(current: Snapshot, edits: seq<Edit>, table: KeyPath)
    requires forall parent :: Receives(current, edits, parent) ==> parent == table
    ensures !MeetsAtEnd(current, edits)
  {
    hide Receives, HeadedLast, Headless, PathLess;
    PathOrder(table, table);
  }

  /** Insertions that meet at the end get a batch refused with which nothing else is
      wrong. */
  lemma MeetingIsRefused(current: Snapshot, edits: seq<Edit>, schema: Schema)
    requires Parse(current.revision.bytes) == Some(current.overrides) && LiteralEdits(edits)
    requires Valid(current, schema) && FitsLimits(current, edits)
    requires !BadBatch(current, edits) && forall k :: 0 <= k < |edits| ==> !Conflicting(current, edits[k])
    requires MeetsAtEnd(current, edits)
    ensures PatchOf(TOML, current, edits, schema).status == UnsupportedPatch
  {
    hide *;
    LimitParts(current, edits);
    LiteralsFit(edits);
    PlansAndSplices(current, edits, schema);
    var all := PlanIsLiteral(current, edits);
    CandidateVerdict(current, all, edits);
    FailedCheck(current, schema, Apply(TOML, current, PlannedReplacements(current, edits), edits));
  }

  lemma LimitParts(current: Snapshot, edits: seq<Edit>)
    requires FitsLimits(current, edits)
    ensures forall k :: 0 <= k < |edits| && edits[k].pending.Some? ==>
      |VALUE_PREFIX + Print(edits[k].pending.value)| <= MAXIMUM_DOCUMENT_BYTES
  {}

  lemma FailedCheck(current: Snapshot, schema: Schema, outcome: Outcome)
    requires outcome.Failure?
    ensures Checked(current, schema, outcome).status == UnsupportedPatch
  {}
}
