/** The candidate of a plan, read line by line: exactly what it binds and which
    headers it has, before anything is checked. */
module FragmentCandidate {
  import opened Bytes
  import opened Splice
  import opened Documents
  import opened Patch
  import opened PatchProperties
  import opened Fragment
  import opened FragmentLines
  import opened FragmentFrame
  import opened FragmentTally
  import opened FragmentPlan
  import opened FragmentPatch
  import opened FragmentLiterals
  import opened FragmentInsertion
  import opened FragmentReading
  import opened FragmentItems

  // ---------------------------------------------------------------------------
  // What the edits ask for

  /** The value of a key once the batch is realised. */
  function After(current: Snapshot, batch: seq<Edit>, key: KeyPath): Option<Value> {
    if batch == [] then current.ValueAt(key)
    else if batch[|batch| - 1].key == key then batch[|batch| - 1].pending
    else After(current, batch[..|batch| - 1], key)
  }

  lemma {:induction false} AfterEdit(current: Snapshot, batch: seq<Edit>, k: nat)
    requires !BadKey(batch) && k < |batch|
    ensures After(current, batch, batch[k].key) == batch[k].pending
  {
    var last := |batch| - 1;
    if k < last {
      BadKeyFront(batch);
      assert batch[k].key != batch[last].key;
      AfterEdit(current, batch[..last], k);
      assert batch[..last][k] == batch[k];
    }
  }

  lemma {:induction false} AfterOthers(current: Snapshot, batch: seq<Edit>, key: KeyPath)
    requires !KeyUsed(batch, key)
    ensures After(current, batch, key) == current.ValueAt(key)
  {
    if batch != [] {
      var front := batch[..|batch| - 1];
      assert batch[|batch| - 1].key != key;
      forall i | 0 <= i < |front| ensures front[i].key != key {
        assert batch[i].key != key;
      }
      AfterOthers(current, front, key);
    }
  }

  // ---------------------------------------------------------------------------
  // What the candidate is expected to hold

  /** The rows whose keys are inserted at line start `i`, in section `section`. */
  function RowsAt(current: Snapshot, batch: seq<Edit>, i: nat, section: KeyPath): seq<Row> {
    if PointOf(TOML, current, section) == Some(i) then RowsOf(current, batch, section) else []
  }

  /** A line of the document with its edit, if any, applied. */
  function LineAfter(current: Snapshot, batch: seq<Edit>, kind: LineKind, section: KeyPath): Reading {
    if kind.Assign? then
      match After(current, batch, section + [kind.key])
      case None => Reading([], [], section)
      case Some(value) => Reading([(section + [kind.key], value)], [], section)
    else LineReading(kind, section)
  }

  function Expected(current: Snapshot, batch: seq<Edit>, insertions: Insertions, i: nat, section: KeyPath): Reading
    requires i <= |current.revision.bytes|
    decreases |current.revision.bytes| - i
  {
    var doc := current.revision.bytes;
    if i == |doc| then EndReading(current, batch, insertions, section)
    else
      var kind := Classify(doc[i..NextLine(doc, i)]);
      Joined(RowReading(section, RowsAt(current, batch, i, section)),
             Joined(LineAfter(current, batch, kind, section),
                    Expected(current, batch, insertions, NextLine(doc, i), SectionAfter(kind, section))))
  }

  /** `section` is the one a header that ends at `i` opens, and the root at the start. */
  ghost predicate InSection(doc: ByteString, i: nat, section: KeyPath) {
    && (i == 0 ==> section == [])
    && forall h: nat, parent :: HeaderAt(doc, h, parent) && NextLine(doc, h) == i ==> parent == section
  }

  lemma InSectionNext(doc: ByteString, i: nat, section: KeyPath)
    requires i < |doc| && LineStart(doc, i)
    ensures InSection(doc, NextLine(doc, i), SectionAfter(Classify(doc[i..NextLine(doc, i)]), section))
  {
    hide Classify;
    var n := NextLine(doc, i);
    forall h: nat, parent | HeaderAt(doc, h, parent) && NextLine(doc, h) == n
      ensures parent == SectionAfter(Classify(doc[i..n]), section)
    {
      SameLine(doc, h, i);
    }
  }

  lemma SameLine(doc: ByteString, h: nat, i: nat)
    requires h < |doc| && i < |doc| && LineStart(doc, h) && LineStart(doc, i) && NextLine(doc, h) == NextLine(doc, i)
    ensures h == i
  {
    if h < i {
      LinesDoNotOverlap(doc, h, i);
    } else if i < h {
      LinesDoNotOverlap(doc, i, h);
    }
  }

  /** Keys inserted at a point are those of the section in force there. */
  lemma PointInSection(current: Snapshot, i: nat, section: KeyPath, parent: KeyPath)
    requires Parse(current.revision.bytes) == Some(current.overrides)
    requires InSection(current.revision.bytes, i, section) && PointOf(TOML, current, parent) == Some(i)
    ensures parent == section
  {
    hide Parse, NextLine, PointOf, LineStart, Classify;
    InsertionPointMeaning(current, parent);
    if parent == [] {
      assert i == 0;
    } else {
      var h: nat :| Headed(current.revision.bytes, h, parent) && i == NextLine(current.revision.bytes, h);
      HeadedIsHeader(current.revision.bytes, h, parent);
    }
  }

  lemma HeadedIsHeader(doc: ByteString, h: nat, parent: KeyPath)
    requires Headed(doc, h, parent)
    ensures HeaderAt(doc, h, parent)
  {}

  // ---------------------------------------------------------------------------
  // One line

  /** A plan without conflicts for literal values. */
  ghost predicate LiteralPlan(current: Snapshot, all: seq<Located>, batch: seq<Edit>) {
    && FragmentPatch.Planned(current, all, batch) && LiteralEdits(batch)
    && Parse(current.revision.bytes) == Some(current.overrides)
  }

  lemma PlanParts(current: Snapshot, all: seq<Located>, batch: seq<Edit>)
    requires LiteralPlan(current, all, batch)
    ensures BindingsOfDocument(current, all) && PlanAll(TOML, current, batch).Some? && LiteralEdits(batch)
    ensures FragmentPatch.Planned(current, all, batch) && Parse(current.revision.bytes) == Some(current.overrides)
    ensures PlanAll(TOML, current, batch).value.conflicts == [] && !BadBatch(current, batch) && !BadKey(batch)
    ensures forall k :: 0 <= k < |batch| && Changes(current, batch[k]) ==>
      Same(current.ValueAt(batch[k].key), batch[k].baseline)
  {
    hide PlanAll, Parse, BindingsOfDocument;
    NoConflictMeansSeen(TOML, current, batch);
  }

  lemma CurrentValue(current: Snapshot, all: seq<Located>, x: Located)
    requires BindingsOfDocument(current, all) && x in all
    ensures x.key in current.overrides && current.ValueAt(x.key) == Some(x.value)
  {
    hide BindingsOfDocument, EntryOf;
    EntryOfBinding(current, all, x);
    EntryValue(current, x);
  }

  /** A line nobody replaces has the value it should have. */
  lemma UnreplacedValue(current: Snapshot, all: seq<Located>, batch: seq<Edit>, x: Located)
    requires LiteralPlan(current, all, batch) && x in all && OnLine(current.revision.bytes, x)
    requires forall p: nat :: x.line <= p < NextLine(current.revision.bytes, x.line) ==>
      StartingAt(PlannedReplacements(current, batch), p).None?
    ensures After(current, batch, x.key) == Some(x.value)
  {
    hide PlanAll, Parse, BindingsOfDocument, OnLine, PlannedReplacements, StartingAt, ReplacementOf, NextLine, LiteralEdits,
      Removes, Sets;
    PlanParts(current, all, batch);
    CurrentValue(current, all, x);
    if k :| 0 <= k < |batch| && batch[k].key == x.key {
      AfterEdit(current, batch, k);
      if Changes(current, batch[k]) {
        PlanVerdict(TOML, current, batch);
        ChangeIsPlanned(current, batch, k);
        var r := ReplacementOf(TOML, current, batch[k]);
        CollectMembers(ReplacementFrom(TOML, current), batch, r);
        PendingInFragment(batch, k);
        ReplacementOfBinding(current, all, batch[k], x);
        InPlanned(current, batch, r);
        OnLineBounds(current.revision.bytes, x);
        EditSpan(current.revision.bytes, x, r);
        StartingAtFinds(PlannedReplacements(current, batch), r);
        assert false;
      }
    } else {
      AfterOthers(current, batch, x.key);
    }
  }

  lemma PendingInFragment(batch: seq<Edit>, k: nat)
    requires LiteralEdits(batch) && k < |batch|
    ensures batch[k].pending.Some? ==> InFragment(batch[k].pending.value)
  {}

  lemma EditSpan(doc: ByteString, x: Located, r: Replacement)
    requires x.line <= |doc| && x.line < x.span.begin < x.span.end <= NextLine(doc, x.line) <= |doc|
    requires Removes(x, r) || Sets(x, r)
    ensures !IsInsertion(r) && r.span.begin < r.span.end && x.line <= r.span.begin < NextLine(doc, x.line)
  {
    hide NextLine;
  }

  lemma ChangeIsPlanned(current: Snapshot, batch: seq<Edit>, k: nat)
    requires k < |batch| && !BadBatch(current, batch) && batch[k].key in current.overrides && Changes(current, batch[k])
    requires Same(current.ValueAt(batch[k].key), batch[k].baseline)
    ensures Replaces(current, batch[k])
    ensures ReplacementFrom(TOML, current)(batch[k]) == Some(ReplacementOf(TOML, current, batch[k]))
  {
    hide ReplacementOf;
    assert !Unsafe(current, batch[k]);
  }

  /** A replaced line gets the value the edit of its key asks for. */
  lemma ReplacedValue(current: Snapshot, all: seq<Located>, batch: seq<Edit>, i: nat, section: KeyPath, r: Replacement)
    returns (pending: Option<Value>)
    requires LiteralPlan(current, all, batch) && i < |current.revision.bytes| && LineStart(current.revision.bytes, i)
    requires Locate(current.revision.bytes, i, section).Some?
    requires SuffixOf(all, i, Locate(current.revision.bytes, i, section).value)
    requires r in PlannedReplacements(current, batch) && !IsInsertion(r)
    requires i <= r.span.begin < NextLine(current.revision.bytes, i)
    ensures var doc := current.revision.bytes;
      var kind := Classify(doc[i..NextLine(doc, i)]);
      && kind.Assign? && After(current, batch, section + [kind.key]) == pending
      && match pending
         case None => r.text == []
         case Some(value) => Literal(value) && r == Replacement(Span(i + kind.begin, i + kind.end), Print(value))
  {
    hide *;
    var doc := current.revision.bytes;
    PlanParts(current, all, batch);
    BindingsOnLines(current, all);
    PlanIsLineWise(current, all, batch);
    var edited, removed := EditedKeys(batch), RemovedKeys(current, batch);
    var x := ReplacementOnLine(doc, all, PlannedReplacements(current, batch), edited, removed, i, r);
    HeadOfAll(doc, all, i, section, x);
    ReplacementIsPlanned(current, all, batch, r);
    pending := PendingOf(current, all, batch, r, x);
  }

  lemma HeadOfAll(doc: ByteString, all: seq<Located>, i: nat, section: KeyPath, x: Located)
    requires i < |doc| && LineStart(doc, i) && Locate(doc, i, section).Some?
    requires SuffixOf(all, i, Locate(doc, i, section).value) && x in all && x.line == i
    ensures var kind := Classify(doc[i..NextLine(doc, i)]);
      kind.Assign? && x == Located(section + [kind.key], kind.value, i, Span(i + kind.begin, i + kind.end))
  {
    hide Locate, Classify, NextLine, LineStart;
    HeadOfLine(doc, i, section, x);
  }

  /** The pending value behind a planned replacement of `x`. */
  lemma PendingOf(current: Snapshot, all: seq<Located>, batch: seq<Edit>, r: Replacement, x: Located)
    returns (pending: Option<Value>)
    requires LiteralPlan(current, all, batch) && x in all && OnLine(current.revision.bytes, x)
    requires r in PlanAll(TOML, current, batch).value.replacements
    requires if x.key in RemovedKeys(current, batch) then Removes(x, r) else Sets(x, r)
    ensures After(current, batch, x.key) == pending
    ensures match pending
      case None => r.text == []
      case Some(value) => Literal(value) && r == Replacement(x.span, Print(value))
  {
    hide PlanAll, Parse, BindingsOfDocument, ReplacementOf, Print, RemovedKeys, Sets, OnLine;
    PlanParts(current, all, batch);
    PlanVerdict(TOML, current, batch);
    CollectMembers(ReplacementFrom(TOML, current), batch, r);
    var k: nat :| k < |batch| && ReplacementFrom(TOML, current)(batch[k]) == Some(r);
    assert Replaces(current, batch[k]) && r == ReplacementOf(TOML, current, batch[k]);
    var y := BindingOfEntry(current, all, batch[k].key);
    PendingInFragment(batch, k);
    ReplacementOfBinding(current, all, batch[k], y);
    BindingsOnLines(current, all);
    SameSpanSameBinding(current, all, x, y, r);
    AfterEdit(current, batch, k);
    pending := batch[k].pending;
    SetText(current, all, batch[k], x);
  }

  lemma SetText(current: Snapshot, all: seq<Located>, edit: Edit, x: Located)
    requires BindingsOfDocument(current, all) && x in all && x.key == edit.key
    requires edit.key in current.overrides && current.overrides[edit.key].assignment.Some?
    ensures edit.pending.Some? ==> ReplacementOf(TOML, current, edit) == Replacement(x.span, Print(edit.pending.value))
  {
    hide BindingsOfDocument, Print;
    EntryOfBinding(current, all, x);
  }

  /** Replacements of two bindings differ. */
  lemma SameSpanSameBinding(current: Snapshot, all: seq<Located>, x: Located, y: Located, r: Replacement)
    requires BindingsOfDocument(current, all) && x in all && y in all
    requires OnLine(current.revision.bytes, x) && OnLine(current.revision.bytes, y)
    requires (Removes(x, r) || Sets(x, r)) && (Removes(y, r) || Sets(y, r))
    ensures x == y
  {
    hide NextLine, LineStart, BindingsOfDocument;
    var doc := current.revision.bytes;
    OnLineBounds(doc, x);
    OnLineBounds(doc, y);
    if x.line < y.line {
      LinesDoNotOverlap(doc, x.line, y.line);
    } else if y.line < x.line {
      LinesDoNotOverlap(doc, y.line, x.line);
    }
    SameLineSameBinding(current, all, x, y);
  }

  lemma SameLineSameBinding(current: Snapshot, all: seq<Located>, x: Located, y: Located)
    requires BindingsOfDocument(current, all) && x in all && y in all && x.line == y.line
    ensures x == y
  {
    hide *;
    LocatedAtStart(current, all);
    OneBindingPerLine(current.revision.bytes, 0, [], x, y);
  }

  lemma {:induction false} OneBindingPerLine(doc: ByteString, i: nat, section: KeyPath, x: Located, y: Located)
    requires i <= |doc| && (i == |doc| || LineStart(doc, i)) && Locate(doc, i, section).Some?
    requires x in Locate(doc, i, section).value && y in Locate(doc, i, section).value && x.line == y.line
    ensures x == y
    decreases |doc| - i
  {
    hide *;
    LocatedOnLine(doc, i, section, x);
    if x.line == i {
      HeadOfLine(doc, i, section, x);
      HeadOfLine(doc, i, section, y);
    } else {
      InRest(doc, i, section, x);
      InRest(doc, i, section, y);
      NextLineStarts(doc, i);
      NextLineInside(doc, i);
      OneBindingPerLine(doc, NextLine(doc, i), SectionAfter(Classify(doc[i..NextLine(doc, i)]), section), x, y);
    }
  }

  /** What the line of the document has become. */
  lemma LineIsAfter(current: Snapshot, all: seq<Located>, batch: seq<Edit>, i: nat, section: KeyPath,
                    r: Option<Replacement>, ending: ByteString)
    requires LiteralPlan(current, all, batch) && i < |current.revision.bytes| && LineStart(current.revision.bytes, i)
    requires Locate(current.revision.bytes, i, section).Some?
    requires SuffixOf(all, i, Locate(current.revision.bytes, i, section).value)
    requires OnlyReplacement(current.revision.bytes, PlannedReplacements(current, batch), i, r)
    requires var doc := current.revision.bytes;
      EditsLine(i, Classify(doc[i..NextLine(doc, i)]), r) && Ending(doc, i, ending)
    ensures var doc := current.revision.bytes;
      var kind, out := Classify(doc[i..NextLine(doc, i)]), Classify(LineOut(doc, i, r) + ending);
      && out != Bad && SectionAfter(out, section) == SectionAfter(kind, section)
      && LineReading(out, section) == LineAfter(current, batch, kind, section)
  {
    hide *;
    var doc := current.revision.bytes;
    var kind := Classify(doc[i..NextLine(doc, i)]);
    PlanParts(current, all, batch);
    LocateStep(doc, i, section);
    LineOutKind(doc, i, r, ending);
    if r.Some? {
      ReplacementWithin(doc, PlannedReplacements(current, batch), i, r.value);
      StartingIsMember(PlannedReplacements(current, batch), r.value);
      var pending := ReplacedValue(current, all, batch, i, section, r.value);
      if pending.Some? {
        SetLineOut(doc, i, r.value, pending.value, ending);
      }
      LineOfValue(current, batch, kind, Classify(LineOut(doc, i, r) + ending), section, pending);
    } else if kind.Assign? {
      var x := Located(section + [kind.key], kind.value, i, Span(i + kind.begin, i + kind.end));
      HeadIsLocated(doc, i, section, all, x);
      BindingsOnLines(current, all);
      NothingStarts(doc, PlannedReplacements(current, batch), i);
      UnreplacedValue(current, all, batch, x);
      LineOfValue(current, batch, kind, kind, section, Some(kind.value));
    } else {
      PlainLine(current, batch, kind, section);
    }
  }

  lemma StartingIsMember(rs: seq<Replacement>, r: Replacement)
    requires StartingAt(rs, r.span.begin) == Some(r)
    ensures r in rs && !IsInsertion(r)
  {}

  lemma NothingStarts(doc: ByteString, rs: seq<Replacement>, i: nat)
    requires i < |doc| && OnlyReplacement(doc, rs, i, None)
    ensures forall p: nat :: i <= p < NextLine(doc, i) ==> StartingAt(rs, p).None?
  {}

  lemma HeadIsLocated(doc: ByteString, i: nat, section: KeyPath, all: seq<Located>, x: Located)
    requires i < |doc| && Locate(doc, i, section).Some? && SuffixOf(all, i, Locate(doc, i, section).value)
    requires var kind := Classify(doc[i..NextLine(doc, i)]);
      kind.Assign? && x == Located(section + [kind.key], kind.value, i, Span(i + kind.begin, i + kind.end))
    ensures x in all
  {
    hide Classify, Locate, NextLine;
    LocateStep(doc, i, section);
    assert x in Locate(doc, i, section).value;
  }

  lemma PlainLine(current: Snapshot, batch: seq<Edit>, kind: LineKind, section: KeyPath)
    requires !kind.Assign?
    ensures LineReading(kind, section) == LineAfter(current, batch, kind, section)
  {}

  lemma LineOfValue(current: Snapshot, batch: seq<Edit>, kind: LineKind, out: LineKind, section: KeyPath, pending: Option<Value>)
    requires kind.Assign? && After(current, batch, section + [kind.key]) == pending
    requires pending.None? ==> out == Blank
    requires pending.Some? ==> out.Assign? && out.key == kind.key && out.value == pending.value
    ensures out != Bad && SectionAfter(out, section) == SectionAfter(kind, section)
    ensures LineReading(out, section) == LineAfter(current, batch, kind, section)
  {
    hide After;
  }

  lemma SetLineOut(doc: ByteString, i: nat, r: Replacement, value: Value, ending: ByteString)
    requires i < |doc| && Ending(doc, i, ending) && Literal(value)
    requires var kind := Classify(doc[i..NextLine(doc, i)]);
      && kind.Assign? && kind.begin <= kind.end <= NextLine(doc, i) - i
      && r == Replacement(Span(i + kind.begin, i + kind.end), Print(value))
    requires i <= r.span.begin < r.span.end <= NextLine(doc, i)
    ensures var kind, out := Classify(doc[i..NextLine(doc, i)]), Classify(LineOut(doc, i, Some(r)) + ending);
      out.Assign? && out.key == kind.key && out.value == value
  {
    hide *;
    var line := doc[i..NextLine(doc, i)];
    var kind := Classify(line);
    LineIsInline(doc, i, ending);
    SetLineKind(line, value, ending);
    SetLineText(doc, i, r, kind.begin, kind.end);
  }

  lemma LineIsInline(doc: ByteString, i: nat, ending: ByteString)
    requires i < |doc| && Ending(doc, i, ending)
    ensures var line := doc[i..NextLine(doc, i)];
      && OnlyLast(line)
      && (ending == [] || (NEWLINE !in line && (ending == [NEWLINE] || ending == [RETURN, NEWLINE])))
  {
    hide NextLine;
    LineBytes(doc, i);
  }

  lemma SetLineText(doc: ByteString, i: nat, r: Replacement, begin: nat, end: nat)
    requires i < |doc| && begin < end <= NextLine(doc, i) - i && r.span == Span(i + begin, i + end)
    ensures var line := doc[i..NextLine(doc, i)];
      LineOut(doc, i, Some(r)) == line[..begin] + r.text + line[end..]
  {
    hide NextLine;
    var line := doc[i..NextLine(doc, i)];
    assert line[..begin] == doc[i..r.span.begin];
    assert line[end..] == doc[r.span.end..NextLine(doc, i)];
  }

  // ---------------------------------------------------------------------------
  // The whole candidate

  function PlannedInsertions(current: Snapshot, batch: seq<Edit>): Insertions
    requires PlanAll(TOML, current, batch).Some?
  {
    PlanAll(TOML, current, batch).value.insertions
  }

  /** What is inserted, at any point, is what the insertions insert. */
  lemma InsertedText(current: Snapshot, all: seq<Located>, batch: seq<Edit>, p: nat)
    requires LiteralPlan(current, all, batch)
    ensures PlanAll(TOML, current, batch).Some?
    ensures InsertText(PlannedReplacements(current, batch), p)
         == InsertText(InsertionsOf(TOML, current, PlannedInsertions(current, batch)), p)
  {
    hide PlanAll, InsertText, InsertionsOf, BindingsOfDocument;
    PlanParts(current, all, batch);
    var plan := PlanAll(TOML, current, batch).value;
    forall r | r in plan.replacements ensures !IsInsertion(r) {
      BindingsOnLines(current, all);
      var x := ReplacementEdits(current, all, batch, r);
    }
    InsertTextJoin(plan.replacements, InsertionsOf(TOML, current, plan.insertions), p);
  }

  lemma TablesOfPlan(current: Snapshot, all: seq<Located>, batch: seq<Edit>)
    requires LiteralPlan(current, all, batch)
    ensures PlanAll(TOML, current, batch).Some? && Tables(current, batch, PlannedInsertions(current, batch))
  {
    hide PlanAll, Tables;
    PlanParts(current, all, batch);
    PlannedTables(current, batch);
  }

  lemma TextOfTable(current: Snapshot, batch: seq<Edit>, insertions: Insertions)
    requires Tables(current, batch, insertions)
    ensures Sorted(insertions)
    ensures forall i :: 0 <= i < |insertions| ==>
      insertions[i].1 == LinesOf(current.revision.bytes, RowsOf(current, batch, insertions[i].0))
  {
    hide LinesOf, RowsOf, HasTable, Receives, TextFor;
    forall i | 0 <= i < |insertions|
      ensures insertions[i].1 == LinesOf(current.revision.bytes, RowsOf(current, batch, insertions[i].0))
    {
      TextForAt(insertions, i);
    }
  }

  lemma {:induction false} TextForAt(insertions: Insertions, i: nat)
    requires Sorted(insertions) && i < |insertions|
    ensures TextFor(insertions, insertions[i].0) == insertions[i].1
    decreases |insertions|
  {
    hide PathLess;
    TextForLast(insertions, insertions[i].0);
    if i < |insertions| - 1 {
      PathOrder(insertions[i].0, insertions[|insertions| - 1].0);
      TextForAt(insertions[..|insertions| - 1], i);
    }
  }

  /** The rows inserted at a line start inside the document. */
  lemma MiddleRead(current: Snapshot, all: seq<Located>, batch: seq<Edit>, i: nat, section: KeyPath)
    requires LiteralPlan(current, all, batch) && i < |current.revision.bytes|
    requires InSection(current.revision.bytes, i, section)
    ensures var text := InsertText(PlannedReplacements(current, batch), i);
      Whole(text) && Read(text, section) == Some(RowReading(section, RowsAt(current, batch, i, section)))
  {
    hide *;
    PlanParts(current, all, batch);
    TablesOfPlan(current, all, batch);
    var insertions := PlannedInsertions(current, batch);
    TablesParts(current, batch, insertions);
    InsertedText(current, all, batch, i);
    forall parent | PointOf(TOML, current, parent) == Some(i) ensures parent == section {
      PointInSection(current, i, section, parent);
    }
    MiddleText(current, insertions, i, section);
    RowsAreLiteral(current, batch, section);
    NoRowsLiteral();
    var rows := RowsAt(current, batch, i, section);
    RowsAtParts(current, batch, i, section);
    RowsRead(current.revision.bytes, rows, section);
    RowReadingOf(section, rows);
  }

  lemma NoRowsLiteral()
    ensures LiteralRows([]) && forall doc: ByteString :: LinesOf(doc, []) == []
  {}

  lemma RowsAtParts(current: Snapshot, batch: seq<Edit>, i: nat, section: KeyPath)
    ensures RowsAt(current, batch, i, section)
         == if PointOf(TOML, current, section) == Some(i) then RowsOf(current, batch, section) else []
  {}

  /** The text at the end of the file, under any section. */
  lemma EndRead(current: Snapshot, all: seq<Located>, batch: seq<Edit>, section: KeyPath)
    requires LiteralPlan(current, all, batch)
    ensures PlanAll(TOML, current, batch).Some?
    ensures EndTextReads(current, batch, PlannedInsertions(current, batch), section,
                         InsertText(PlannedReplacements(current, batch), |current.revision.bytes|))
  {
    hide *;
    PlanParts(current, all, batch);
    TablesOfPlan(current, all, batch);
    TextOfTable(current, batch, PlannedInsertions(current, batch));
    InsertedText(current, all, batch, |current.revision.bytes|);
    EndTextIsRead(current, batch, PlannedInsertions(current, batch), section);
  }

  lemma ExpectedStep(current: Snapshot, batch: seq<Edit>, insertions: Insertions, i: nat, section: KeyPath)
    requires i < |current.revision.bytes|
    ensures var doc := current.revision.bytes;
      var kind := Classify(doc[i..NextLine(doc, i)]);
      Expected(current, batch, insertions, i, section)
      == Joined(RowReading(section, RowsAt(current, batch, i, section)),
                Joined(LineAfter(current, batch, kind, section),
                       Expected(current, batch, insertions, NextLine(doc, i), SectionAfter(kind, section))))
  {
    hide Classify, NextLine, Joined, RowReading, LineAfter, RowsAt, EndReading;
  }

  lemma ExpectedEnd(current: Snapshot, batch: seq<Edit>, insertions: Insertions, section: KeyPath)
    ensures Expected(current, batch, insertions, |current.revision.bytes|, section)
         == EndReading(current, batch, insertions, section)
  {}

  /** The edited line and what follows it. */
  lemma ReadEdited(line: ByteString, rest: ByteString, section: KeyPath, after: Reading, r: Reading)
    requires IsLine(line) || (rest == [] && (line == [] || NextLine(line, 0) == |line|))
    requires Classify(line) != Bad && LineReading(Classify(line), section) == after
    requires Read(rest, after.section) == Some(r)
    ensures Read(line + rest, section) == Some(Joined(after, r))
  {
    hide Classify, Joined, NextLine;
    if line == [] {
      EmptyLineIsBlank();
      BlankReading(section, r);
      assert line + rest == rest;
    } else {
      ReadLine(line, rest, section);
    }
  }

  lemma BlankReading(section: KeyPath, r: Reading)
    ensures Joined(LineReading(Blank, section), r) == r && LineReading(Blank, section).section == section
  {}

  lemma LineAfterSection(current: Snapshot, batch: seq<Edit>, kind: LineKind, section: KeyPath)
    ensures LineAfter(current, batch, kind, section).section == SectionAfter(kind, section)
  {
    hide After;
  }

  /** An unterminated last line, with the text that is inserted behind it. */
  lemma LastLineRead(current: Snapshot, all: seq<Located>, batch: seq<Edit>, i: nat, section: KeyPath, r: Option<Replacement>)
    requires LiteralPlan(current, all, batch) && i < |current.revision.bytes| && LineStart(current.revision.bytes, i)
    requires Locate(current.revision.bytes, i, section).Some?
    requires SuffixOf(all, i, Locate(current.revision.bytes, i, section).value)
    requires OnlyReplacement(current.revision.bytes, PlannedReplacements(current, batch), i, r)
    requires var doc := current.revision.bytes;
      EditsLine(i, Classify(doc[i..NextLine(doc, i)]), r)
      && NextLine(doc, i) == |doc| && !LineStart(doc, |doc|)
    ensures r.Some? ==> i <= r.value.span.begin < r.value.span.end <= NextLine(current.revision.bytes, i)
    ensures PlanAll(TOML, current, batch).Some?
    ensures var doc := current.revision.bytes;
      var kind := Classify(doc[i..NextLine(doc, i)]);
      Read(LineOut(doc, i, r) + InsertText(PlannedReplacements(current, batch), |doc|), section)
      == Some(Joined(LineAfter(current, batch, kind, section),
                     EndReading(current, batch, PlannedInsertions(current, batch), SectionAfter(kind, section))))
  {
    hide *;
    var doc := current.revision.bytes;
    var kind := Classify(doc[i..NextLine(doc, i)]);
    EditFits(doc, i, r);
    PlanParts(current, all, batch);
    var out, text := LineOut(doc, i, r), InsertText(PlannedReplacements(current, batch), |doc|);
    var later := SectionAfter(kind, section);
    EndRead(current, all, batch, later);
    LineAfterSection(current, batch, kind, section);
    var end := EndReading(current, batch, PlannedInsertions(current, batch), later);
    var ending, rest := EndParts(current, batch, PlannedInsertions(current, batch), later, text);
    EndingFits(doc, i, ending);
    LineIsAfter(current, all, batch, i, section, r, ending);
    LineOutIsLine(doc, i, r, ending);
    Associative(out, ending, rest);
    ReadEdited(out + ending, rest, section, LineAfter(current, batch, kind, section), end);
  }

  /** The text at the end of an unterminated document: nothing, or a line ending and
      then lines that read alike. */
  lemma EndParts(current: Snapshot, batch: seq<Edit>, insertions: Insertions, section: KeyPath, text: ByteString)
    returns (ending: ByteString, rest: ByteString)
    requires EndTextReads(current, batch, insertions, section, text)
    requires !LineStart(current.revision.bytes, |current.revision.bytes|)
    ensures text == ending + rest && (ending == [] ==> rest == [])
    ensures ending == [] || ending == [NEWLINE] || ending == [RETURN, NEWLINE]
    ensures Read(rest, section) == Some(EndReading(current, batch, insertions, section))
  {
    hide Read, EndReading, HasCrlf, Joined;
    var doc := current.revision.bytes;
    if text == [] {
      ending, rest := [], [];
    } else {
      LineEndings(doc);
      ending := LineEnding(doc);
      assert Separator(doc, |doc|) == ending;
      rest := text[|ending|..];
      assert text == ending + rest;
      BlankLineAway(doc, rest, section, EndReading(current, batch, insertions, section));
    }
  }

  lemma BlankLineAway(doc: ByteString, rest: ByteString, section: KeyPath, r: Reading)
    requires Read(LineEnding(doc) + rest, section) == Some(r)
    ensures Read(rest, section) == Some(r)
  {
    hide Classify, HasCrlf, Joined, Read;
    LineEndings(doc);
    var line := LineEnding(doc);
    TerminatedIsLine([], line);
    assert [] + line == line;
    StripTerminated([], line);
    BlankContent(line);
    ReadLine(line, rest, section);
    BlankSection(section);
    if Read(rest, section).Some? {
      BlankReading(section, Read(rest, section).value);
    }
  }

  lemma BlankSection(section: KeyPath)
    ensures SectionAfter(Blank, section) == section
  {}

  /** From every line start on, the candidate reads exactly as expected. */
  lemma {:induction false} CandidateReads(current: Snapshot, all: seq<Located>, batch: seq<Edit>, i: nat, section: KeyPath)
    requires LiteralPlan(current, all, batch) && i <= |current.revision.bytes| && LineStart(current.revision.bytes, i)
    requires Locate(current.revision.bytes, i, section).Some?
    requires SuffixOf(all, i, Locate(current.revision.bytes, i, section).value)
    requires InSection(current.revision.bytes, i, section)
    ensures PlanAll(TOML, current, batch).Some?
    ensures Read(Substituted(current.revision.bytes, PlannedReplacements(current, batch), i), section)
         == Some(Expected(current, batch, PlannedInsertions(current, batch), i, section))
    decreases |current.revision.bytes| - i
  {
    hide *;
    var doc := current.revision.bytes;
    PlanParts(current, all, batch);
    PlanIsLineWise(current, all, batch);
    BindingsOnLines(current, all);
    var rs, insertions := PlannedReplacements(current, batch), PlannedInsertions(current, batch);
    var edited, removed := EditedKeys(batch), RemovedKeys(current, batch);
    NothingAfterEnd(doc, all, rs, edited, removed);
    if i == |doc| {
      EndRead(current, all, batch, section);
      EndIsRead(current, batch, insertions, section, InsertText(rs, |doc|));
      ExpectedEnd(current, batch, insertions, section);
    } else {
      var n := NextLine(doc, i);
      var kind := Classify(doc[i..n]);
      NextLineInside(doc, i);
      var r := LineReplacement(doc, all, rs, edited, removed, i, section);
      EditFits(doc, i, r);
      SubstitutedLine(doc, rs, i, r);
      MiddleRead(current, all, batch, i, section);
      ExpectedStep(current, batch, insertions, i, section);
      LineAfterSection(current, batch, kind, section);
      RowSection(section, RowsAt(current, batch, i, section));
      var out, here := LineOut(doc, i, r), LineAfter(current, batch, kind, section);
      if LineStart(doc, n) {
        SuffixStep(doc, all, i, section);
        InSectionNext(doc, i, section);
        CandidateReads(current, all, batch, n, SectionAfter(kind, section));
        assert out + [] == out;
        EndingFits(doc, i, []);
        LineIsAfter(current, all, batch, i, section, r, []);
        LineOutIsLine(doc, i, r, []);
        ReadEdited(out, Substituted(doc, rs, n), section, here,
                   Expected(current, batch, insertions, n, SectionAfter(kind, section)));
      } else {
        EndingFits(doc, i, [NEWLINE]);
        LastLineRead(current, all, batch, i, section, r);
        ExpectedEnd(current, batch, insertions, SectionAfter(kind, section));
      }
      ReadJoin(InsertText(rs, i), out + Substituted(doc, rs, n), section, RowReading(section, RowsAt(current, batch, i, section)),
               Joined(here, Expected(current, batch, insertions, n, SectionAfter(kind, section))));
    }
  }

  lemma RowSection(section: KeyPath, rows: seq<Row>)
    ensures RowReading(section, rows).section == section
  {}

  lemma EndIsRead(current: Snapshot, batch: seq<Edit>, insertions: Insertions, section: KeyPath, text: ByteString)
    requires EndTextReads(current, batch, insertions, section, text)
    ensures Read(text, section) == Some(EndReading(current, batch, insertions, section))
  {}
}
