/** The smallest batch that is refused only because its insertions meet at the end
    of the file: each edit succeeds alone. */
module FragmentEndOfFile {
  import opened Bytes
  import opened Splice
  import opened SpliceSize
  import opened Documents
  import opened Patch
  import opened PatchProperties
  import opened Fragment
  import opened FragmentLines
  import opened FragmentFrame
  import opened FragmentPlan
  import opened FragmentPatch
  import opened FragmentLiterals
  import opened FragmentInsertion
  import opened FragmentItems
  import opened FragmentCandidate
  import opened FragmentSuccess

  const A: Key := [97]
  const B: Key := [98]
  const X: Key := [120]
  const Y: Key := [121]

  /** The document `[b]`, without a final newline. */
  const DOC: ByteString := [OPEN_BRACKET, 98, CLOSE_BRACKET]

  const CURRENT: Snapshot := Snapshot(None, Revision(true, DOC), map[])

  const TRUE: Option<Value> := Some(Boolean(true))

  const EDITS: seq<Edit> := [Edit([A, X], None, TRUE), Edit([B, Y], None, TRUE)]

  const ANY: Schema := Schema([], None)

  lemma BareHeader()
    ensures LexHeader([98, CLOSE_BRACKET]) == Some(([B], 2))
  {
    var s: ByteString := [98, CLOSE_BRACKET];
    CountSpaceUnique(s, 0);
    assert s[0..] == s;
    CountBareUnique(s, 1);
    assert s[..1] == B;
    CountSpaceUnique(s[1..], 0);
    assert s[0 + 1..] == s[1..];
  }

  lemma DocHeader()
    ensures Classify(DOC) == Header([B]) && NextLine(DOC, 0) == 3
  {
    hide LexHeader;
    BareHeader();
    assert Bytes.Find(DOC, NEWLINE, 0) == 3;
    assert Strip(DOC) == DOC;
    CountSpaceUnique(DOC, 0);
    assert DOC[0..] == DOC && DOC[1..] == [98, CLOSE_BRACKET] && DOC[3..] == [];
    EmptyTrail();
  }

  lemma DocParses()
    ensures Parse(DOC) == Some(map[]) && forall i: nat :: HeaderAt(DOC, i, [A]) ==> false
    ensures forall i: nat :: HeaderAt(DOC, i, [B]) ==> i == 0
    ensures HeaderAt(DOC, 0, [B])
  {
    hide Classify;
    DocHeader();
    assert DOC[0..3] == DOC;
    assert Locate(DOC, 3, [B]) == Some([]);
    assert Locate(DOC, 0, []) == Some([]);
    assert HeadersFrom(DOC, 3) == [];
    assert HeadersFrom(DOC, 0) == [[B]] + [];
    assert KeysOf([]) == [];
    assert MapOf(DOC, []) == map[];
    assert [A] != [B] by {
      assert A[0] != B[0];
    }
  }

  // ---------------------------------------------------------------------------
  // The edits

  /** A batch that adds `a.x`, `b.y` or both. */
  ghost predicate Adding(batch: seq<Edit>) {
    batch == EDITS || batch == [EDITS[0]] || batch == [EDITS[1]]
  }

  lemma EditKeys()
    ensures EDITS[0].key == [A] + [X] && EDITS[1].key == [B] + [Y] && EDITS[0].key != EDITS[1].key && A != B
    ensures EDITS[0].key[..1] == [A] && EDITS[1].key[..1] == [B] && PathLess([A], [B])
  {
    assert A[0] != B[0] && [A, X][0] != [B, Y][0];
    assert BytesLess(A, B);
  }

  lemma TrueIsShort()
    ensures Literal(Boolean(true)) && |VALUE_PREFIX + Print(Boolean(true))| <= MAXIMUM_DOCUMENT_BYTES
  {}

  /** Nothing is wrong with these batches themselves. */
  lemma BatchIsGood(batch: seq<Edit>)
    requires Adding(batch)
    ensures Valid(CURRENT, ANY) && !BadBatch(CURRENT, batch) && LiteralEdits(batch)
    ensures forall i :: 0 <= i < |batch| ==> !Conflicting(CURRENT, batch[i])
    ensures forall k :: 0 <= k < |batch| && batch[k].pending.Some? ==>
      |VALUE_PREFIX + Print(batch[k].pending.value)| <= MAXIMUM_DOCUMENT_BYTES
  {
    hide Literal, Print;
    EditKeys();
    TrueIsShort();
    assert DiagnosticsOf(CURRENT, ANY) == [];
  }

  lemma WhoReceives(batch: seq<Edit>, parent: KeyPath)
    requires Adding(batch)
    ensures Receives(CURRENT, batch, parent) <==>
      (parent == [A] && EDITS[0] in batch) || (parent == [B] && EDITS[1] in batch)
  {
    EditKeys();
    if EDITS[0] in batch {
      var k :| 0 <= k < |batch| && batch[k] == EDITS[0];
      assert Adds(CURRENT, batch[k], [A]);
    }
    if EDITS[1] in batch {
      var k :| 0 <= k < |batch| && batch[k] == EDITS[1];
      assert Adds(CURRENT, batch[k], [B]);
    }
  }

  lemma TablesOfDoc()
    ensures Headless(DOC, [A]) && HeadedLast(DOC, [B]) && !Headless(DOC, [B])
    ensures HeadersFrom(DOC, 0) == [[B]]
  {
    hide Classify, Parse;
    DocParses();
    DocHeader();
    assert Headed(DOC, 0, [B]);
    assert DOC[0..3] == DOC;
    assert HeadersFrom(DOC, 3) == [];
  }

  lemma {:induction false} OnlyTheseKeys(batch: seq<Edit>, key: KeyPath)
    requires Adding(batch) && After(CURRENT, batch, key).Some?
    ensures key == [A, X] || key == [B, Y]
  {
    var one, none: seq<Edit> := batch[..|batch| - 1], [];
    if |batch| == 2 {
      assert one[..0] == none;
    } else {
      assert one == none;
    }
    assert After(CURRENT, none, key) == None;
  }

  lemma TablesFit(batch: seq<Edit>)
    requires Adding(batch)
    ensures AgreesAfter(CURRENT, batch)
  {
    hide Receives, After, Headless, HeadersFrom;
    EditKeys();
    TablesOfDoc();
    forall parent | Fresh(CURRENT, batch, parent) ensures parent == [A] {
      WhoReceives(batch, parent);
    }
    forall key, parent | After(CURRENT, batch, key).Some? && (parent in HeadersFrom(DOC, 0) || Fresh(CURRENT, batch, parent))
      ensures !(key <= parent)
    {
      OnlyTheseKeys(batch, key);
      assert |key| == 2 && |parent| == 1;
    }
  }

  lemma Meeting(batch: seq<Edit>)
    requires Adding(batch)
    ensures MeetsAtEnd(CURRENT, batch) <==> batch == EDITS
  {
    hide Receives, Headless, HeadedLast;
    EditKeys();
    TablesOfDoc();
    if batch == EDITS {
      assert EDITS[0] in batch && EDITS[1] in batch;
      WhoReceives(batch, [A]);
      WhoReceives(batch, [B]);
      assert Meets(CURRENT, batch, [B], [A]);
    } else {
      forall parent | Receives(CURRENT, batch, parent) ensures parent == if batch == [EDITS[0]] then [A] else [B] {
        WhoReceives(batch, parent);
      }
      OneTableNeverMeets(CURRENT, batch, if batch == [EDITS[0]] then [A] else [B]);
    }
  }

  // ---------------------------------------------------------------------------
  // The size

  lemma TextLength(parent: KeyPath, text: ByteString)
    requires (parent == [A] || parent == [B]) && |text| <= 11
    ensures IsInsertion(InsertionOf(TOML, CURRENT, parent, text))
    ensures |InsertionOf(TOML, CURRENT, parent, text).text| <= 30
  {
    hide InsertionOf, PointOf, EscapeBytes, KeyText, HasCrlf;
    InsertionParts(CURRENT, parent, text);
    PrintedKey(A);
    PrintedKey(B);
    PlainBytes(A);
    PlainBytes(B);
  }

  lemma LineLength(key: Key)
    requires |key| == 1 && 95 <= key[0] <= 122
    ensures |InsertedLine(TOML, DOC, key, Boolean(true))| == 11
  {
    hide EscapeBytes, KeyText;
    PrintedKey(key);
    PlainBytes(key);
  }

  /** A plan that inserts short texts for the two tables. */
  ghost predicate ShortPlan(plan: Patch.Plan) {
    && plan.replacements == [] && |plan.insertions| <= 2
    && forall i :: 0 <= i < |plan.insertions| ==>
         (plan.insertions[i].0 == [A] || plan.insertions[i].0 == [B]) && |plan.insertions[i].1| <= 11
  }

  lemma {:induction false} ShortGrowth(insertions: Insertions)
    requires forall i :: 0 <= i < |insertions| ==>
      (insertions[i].0 == [A] || insertions[i].0 == [B]) && |insertions[i].1| <= 11
    ensures Growth(InsertionsOf(TOML, CURRENT, insertions)) <= 30 * |insertions|
    decreases |insertions|
  {
    hide InsertionOf;
    if insertions != [] {
      var last := |insertions| - 1;
      var front := InsertionsOf(TOML, CURRENT, insertions[..last]);
      var r := InsertionOf(TOML, CURRENT, insertions[last].0, insertions[last].1);
      ShortGrowth(insertions[..last]);
      TextLength(insertions[last].0, insertions[last].1);
      assert (front + [r])[..|front|] == front;
    }
  }

  /** Adding a key to a plan that has nothing for its table. */
  lemma OneMoreTable(insertions: Insertions, parent: KeyPath, text: ByteString)
    requires |insertions| <= 1 && forall i :: 0 <= i < |insertions| ==> insertions[i].0 != parent
    ensures |Appended(insertions, parent, text)| == |insertions| + 1
    ensures forall item :: item in Appended(insertions, parent, text) ==> item in insertions || item == (parent, text)
  {
    hide PathLess;
    if insertions != [] {
      var none: Insertions := insertions[1..];
      assert Appended(none, parent, text) == [(parent, text)];
    }
  }

  lemma PlanOfLast(batch: seq<Edit>)
    requires Adding(batch) && PlanAll(TOML, CURRENT, batch).Some? && PlanAll(TOML, CURRENT, batch[..|batch| - 1]).Some?
    ensures var last := |batch| - 1;
      var key := batch[last].key;
      && |key| == 2 && (key[..1] == [A] || key[..1] == [B])
      && PlanAll(TOML, CURRENT, batch).value.replacements == PlanAll(TOML, CURRENT, batch[..last]).value.replacements
      && PlanAll(TOML, CURRENT, batch).value.insertions
         == Appended(PlanAll(TOML, CURRENT, batch[..last]).value.insertions, key[..1],
                     InsertedLine(TOML, DOC, key[1], Boolean(true)))
      && |InsertedLine(TOML, DOC, key[1], Boolean(true))| == 11
  {
    hide InsertedLine, KeyUsed, Appended;
    EditKeys();
    LineLength(X);
    LineLength(Y);
  }

  lemma PlanIsShort(batch: seq<Edit>)
    requires Adding(batch)
    ensures PlanAll(TOML, CURRENT, batch).Some? && ShortPlan(PlanAll(TOML, CURRENT, batch).value)
    decreases |batch|
  {
    hide InsertedLine, BadBatch, Appended, PlanAll;
    EditKeys();
    BatchIsGood(batch);
    PlanVerdict(TOML, CURRENT, batch);
    var last := |batch| - 1;
    if last == 1 {
      assert batch[..1] == [EDITS[0]];
      PlanIsShort([EDITS[0]]);
      PlanOfFirst();
    } else {
      assert batch[..0] == [];
      EmptyPlan();
    }
    PlanOfLast(batch);
    var before := PlanAll(TOML, CURRENT, batch[..last]).value.insertions;
    OneMoreTable(before, batch[last].key[..1], InsertedLine(TOML, DOC, batch[last].key[1], Boolean(true)));
    var after := PlanAll(TOML, CURRENT, batch).value.insertions;
    forall i | 0 <= i < |after| ensures (after[i].0 == [A] || after[i].0 == [B]) && |after[i].1| <= 11 {
      assert after[i] in after;
    }
  }

  lemma EmptyPlan()
    ensures PlanAll(TOML, CURRENT, []) == Some(EMPTY_PLAN)
  {}

  lemma PlanOfFirst()
    requires PlanAll(TOML, CURRENT, [EDITS[0]]).Some?
    ensures var insertions := PlanAll(TOML, CURRENT, [EDITS[0]]).value.insertions;
      |insertions| == 1 && insertions[0].0 == [A]
  {
    hide InsertedLine, PlanAll, Appended;
    EditKeys();
    var one, none: seq<Edit> := [EDITS[0]], [];
    assert one[..|one| - 1] == none;
    EmptyPlan();
    PlanOfLast(one);
    var after := PlanAll(TOML, CURRENT, one).value.insertions;
    OneMoreTable([], [A], InsertedLine(TOML, DOC, X, Boolean(true)));
    assert after[0] in after;
  }

  lemma SizeFits(batch: seq<Edit>)
    requires Adding(batch)
    ensures FitsLimits(CURRENT, batch)
  {
    hide PlanAll, Print, InsertionsOf;
    BatchIsGood(batch);
    PlanIsShort(batch);
    var plan := PlanAll(TOML, CURRENT, batch).value;
    ShortGrowth(plan.insertions);
    assert PlannedReplacements(CURRENT, batch) == [] + InsertionsOf(TOML, CURRENT, plan.insertions)
        == InsertionsOf(TOML, CURRENT, plan.insertions);
  }

  lemma AnyAccepts(snapshot: Snapshot)
    ensures Valid(snapshot, ANY)
  {
    assert DiagnosticsOf(snapshot, ANY) == [];
  }

  lemma AnyCandidate(batch: seq<Edit>)
    ensures AcceptsCandidate(CURRENT, batch, ANY)
  {
    hide Parse, PlanAll, PlannedReplacements, Substituted, Valid;
    forall snapshot ensures Valid(snapshot, ANY) {
      AnyAccepts(snapshot);
    }
  }

  /** The batch is good, nothing conflicts and everything fits, yet the patch is
      refused because of where the two insertions meet. */
  lemma GoodBatchIsRefused()
    ensures !BadBatch(CURRENT, EDITS) && forall i :: 0 <= i < |EDITS| ==> !Conflicting(CURRENT, EDITS[i])
    ensures Parse(DOC) == Some(CURRENT.overrides) && Valid(CURRENT, ANY)
    ensures FitsLimits(CURRENT, EDITS) && AgreesAfter(CURRENT, EDITS) && AcceptsCandidate(CURRENT, EDITS, ANY)
    ensures PatchOf(TOML, CURRENT, EDITS, ANY).status == UnsupportedPatch
  {
    hide *;
    DocParses();
    AddingIt();
    BatchIsGood(EDITS);
    SizeFits(EDITS);
    TablesFit(EDITS);
    AnyCandidate(EDITS);
    Meeting(EDITS);
    CurrentIsDoc();
    MeetingIsRefused(CURRENT, EDITS, ANY);
  }

  lemma CurrentIsDoc()
    ensures CURRENT.revision.bytes == DOC && CURRENT.overrides == map[]
  {}

  lemma AddingIt()
    ensures Adding(EDITS) && Adding([EDITS[0]]) && Adding([EDITS[1]])
    ensures [EDITS[0]] != EDITS && [EDITS[1]] != EDITS
  {}

  lemma SucceedsAlone(batch: seq<Edit>)
    requires Adding(batch) && batch != EDITS
    ensures PatchOf(TOML, CURRENT, batch, ANY).status == Success
  {
    hide *;
    DocParses();
    BatchIsGood(batch);
    SizeFits(batch);
    TablesFit(batch);
    AnyCandidate(batch);
    Meeting(batch);
    CurrentIsDoc();
    EditableWhen(CURRENT, batch);
    SuccessExactly(CURRENT, batch, ANY);
  }

  lemma EditableWhen(current: Snapshot, edits: seq<Edit>)
    requires !BadBatch(current, edits) && forall k :: 0 <= k < |edits| ==> !Conflicting(current, edits[k])
    requires FitsLimits(current, edits) && AgreesAfter(current, edits) && !MeetsAtEnd(current, edits)
    ensures Editable(current, edits)
  {
    hide BadBatch, Conflicting, FitsLimits, AgreesAfter, MeetsAtEnd;
  }

  /** Each edit of the refused batch succeeds when it is alone. */
  lemma EachEditSucceedsAlone()
    ensures PatchOf(TOML, CURRENT, [EDITS[0]], ANY).status == Success
    ensures PatchOf(TOML, CURRENT, [EDITS[1]], ANY).status == Success
  {
    hide PatchOf, Adding;
    AddingIt();
    SucceedsAlone([EDITS[0]]);
    SucceedsAlone([EDITS[1]]);
  }
}
