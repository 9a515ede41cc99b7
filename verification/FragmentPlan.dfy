/** The plan for a fragment document is line by line, whatever the batch. */
module FragmentPlan {
  import opened Bytes
  import opened Splice
  import opened Documents
  import opened Patch
  import opened PatchProperties
  import opened Fragment
  import opened FragmentLines
  import opened FragmentFrame
  import opened FragmentTally
  import Scanner

  // ---------------------------------------------------------------------------
  // Parsed entries

  lemma {:induction false} LocatedInFragment(doc: ByteString, i: nat, section: KeyPath, x: Located)
    requires i <= |doc| && Locate(doc, i, section).Some? && x in Locate(doc, i, section).value
    ensures InFragment(x.value)
    decreases |doc| - i
  {
    hide Classify, NextLine;
    if i < |doc| {
      LocateStep(doc, i, section);
      var next, kind := NextLine(doc, i), Classify(doc[i..NextLine(doc, i)]);
      var rest := Locate(doc, next, SectionAfter(kind, section)).value;
      if x in rest {
        LocatedInFragment(doc, next, SectionAfter(kind, section), x);
      }
    }
  }

  /** The bytes of an assigned value are its lexeme. */
  lemma AssignedLexeme(line: ByteString) returns (s: ByteString)
    requires Classify(line).Assign?
    ensures LexScalar(s).Some? && LexScalar(s).value.1 <= |s|
    ensures s[..LexScalar(s).value.1] == line[Classify(line).begin..Classify(line).end]
  {
    hide Classify, ClassifyAssign, LexScalar, Strip;
    var c, w := Strip(line), CountSpace(Strip(line));
    AssignParts(line);
    var t := c[w..];
    s := LexemeOf(t);
    var begin, end := ClassifyAssign(t).begin, ClassifyAssign(t).end;
    ContentIsPrefix(line);
    assert line[0..|c|] == c && c[w..|c|] == t;
    SliceAgain(c, w, |c|, begin, end);
    SliceAgain(line, 0, |c|, w + begin, w + end);
  }

  lemma AssignParts(line: ByteString)
    requires Classify(line).Assign?
    ensures var c, w := Strip(line), CountSpace(Strip(line));
      && w <= |c| && ClassifyAssign(c[w..]).Assign?
      && ClassifyAssign(c[w..]).begin <= ClassifyAssign(c[w..]).end <= |c[w..]|
      && Classify(line).begin == w + ClassifyAssign(c[w..]).begin && Classify(line).end == w + ClassifyAssign(c[w..]).end
      && Classify(line).end <= |line|
  {
    hide ClassifyHeader, IsTrail, LexKey, LexScalar;
  }

  lemma ContentIsPrefix(line: ByteString)
    ensures Strip(line) <= line
  {}

  lemma LexemeOf(t: ByteString) returns (s: ByteString)
    requires ClassifyAssign(t).Assign?
    ensures LexScalar(s).Some? && LexScalar(s).value.1 <= |s|
    ensures ClassifyAssign(t).begin <= ClassifyAssign(t).end <= |t|
    ensures s[..LexScalar(s).value.1] == t[ClassifyAssign(t).begin..ClassifyAssign(t).end]
  {
    s := t[ClassifyAssign(t).begin..];
  }

  /** No comment is kept from a value of the fragment. */
  lemma {:induction false} LocatedHoldsNoComment(doc: ByteString, i: nat, section: KeyPath, x: Located)
    requires i <= |doc| && (i == |doc| || LineStart(doc, i)) && Locate(doc, i, section).Some?
    requires x in Locate(doc, i, section).value
    ensures x.span.begin < x.span.end <= |doc|
    ensures Scanner.RetainedOf(doc[x.span.begin..x.span.end]) == []
    decreases |doc| - i
  {
    hide *;
    LocatedOnLine(doc, i, section, x);
    var next, kind := NextLine(doc, i), Classify(doc[i..NextLine(doc, i)]);
    if x.line == i {
      HeadOfLine(doc, i, section, x);
      var line := doc[i..next];
      var s := AssignedLexeme(line);
      Fragment.ScalarHoldsNoComment(s);
      OnLineBounds(doc, x);
      SliceAgain(doc, i, next, kind.begin, kind.end);
    } else {
      LocateStep(doc, i, section);
      NextLineStarts(doc, i);
      InRest(doc, i, section, x);
      LocatedHoldsNoComment(doc, next, SectionAfter(kind, section), x);
    }
  }

  lemma OnLineBounds(doc: ByteString, x: Located)
    requires OnLine(doc, x)
    ensures x.line < x.span.begin < x.span.end <= NextLine(doc, x.line) <= |doc| && LineStart(doc, x.line)
  {}

  lemma InRest(doc: ByteString, i: nat, section: KeyPath, x: Located)
    requires i < |doc| && Locate(doc, i, section).Some? && x in Locate(doc, i, section).value && x.line != i
    ensures var next, kind := NextLine(doc, i), Classify(doc[i..NextLine(doc, i)]);
      Locate(doc, next, SectionAfter(kind, section)).Some? && x in Locate(doc, next, SectionAfter(kind, section)).value
  {
    hide Locate, Classify, NextLine;
    LocateStep(doc, i, section);
  }

  /** When a value can be removed, it is removed with its line up to its end. */
  lemma AssignmentStartsLine(doc: ByteString, x: Located)
    requires OnLine(doc, x) && x.span.begin <= |doc|
    ensures Scanner.AssignmentOf(doc, x.span).Some? ==>
      Scanner.AssignmentOf(doc, x.span) == Some(Span(x.line, x.span.end))
  {
    hide Scanner.KeyScan;
    LineBytes(doc, x.line);
  }

  lemma SliceAgain<T>(s: seq<T>, from: nat, to: nat, begin: nat, end: nat)
    requires from <= to <= |s| && begin <= end <= to - from
    ensures s[from..to][begin..end] == s[from + begin..from + end]
  {
    var a, b := s[from..to][begin..end], s[from + begin..from + end];
    assert forall k :: 0 <= k < |a| ==> a[k] == b[k];
  }

  // ---------------------------------------------------------------------------
  // Planned replacements

  /** `all` are the bindings of the document. */
  ghost predicate BindingsOfDocument(current: Snapshot, all: seq<Located>) {
    && Locate(current.revision.bytes, 0, []) == Some(all)
    && Distinct(KeysOf(all))
    && current.overrides == MapOf(current.revision.bytes, all)
  }

  lemma BindingsOnLines(current: Snapshot, all: seq<Located>)
    requires BindingsOfDocument(current, all)
    ensures forall x :: x in all ==> OnLine(current.revision.bytes, x) && x.line < |current.revision.bytes|
  {
    hide *;
    var doc := current.revision.bytes;
    forall x | x in all ensures OnLine(doc, x) && x.line < |doc| {
      LocatedAtStart(current, all);
      LocatedOnLine(doc, 0, [], x);
    }
  }

  lemma LocatedAtStart(current: Snapshot, all: seq<Located>)
    requires BindingsOfDocument(current, all)
    ensures LineStart(current.revision.bytes, 0) && Locate(current.revision.bytes, 0, []) == Some(all)
  {}

  lemma SameKeySameBinding(all: seq<Located>, x: Located, y: Located)
    requires Distinct(KeysOf(all)) && x in all && y in all && x.key == y.key
    ensures x == y
  {
    var i :| 0 <= i < |all| && all[i] == x;
    var j :| 0 <= j < |all| && all[j] == y;
    assert KeysOf(all)[i] == KeysOf(all)[j];
  }

  lemma EntryOfBinding(current: Snapshot, all: seq<Located>, x: Located)
    requires BindingsOfDocument(current, all) && x in all
    ensures x.key in current.overrides && current.overrides[x.key] == EntryOf(current.revision.bytes, x)
  {
    hide Locate, EntryOf, Lookup;
    var i :| 0 <= i < |all| && all[i] == x;
    assert KeysOf(all)[i] == x.key;
    LookupFinds(all, x.key);
    SameKeySameBinding(all, x, Lookup(all, x.key));
  }

  lemma LookupFinds(all: seq<Located>, key: KeyPath)
    requires exists i :: 0 <= i < |all| && all[i].key == key
    ensures Lookup(all, key) in all && Lookup(all, key).key == key
  {}

  lemma BindingOfEntry(current: Snapshot, all: seq<Located>, key: KeyPath) returns (x: Located)
    requires BindingsOfDocument(current, all) && key in current.overrides
    ensures x in all && x.key == key && current.overrides[key] == EntryOf(current.revision.bytes, x)
  {
    hide Locate, EntryOf;
    x := Lookup(all, key);
  }

  function EditedKeys(batch: seq<Edit>): set<KeyPath> {
    set k | 0 <= k < |batch| :: batch[k].key
  }

  function RemovedKeys(current: Snapshot, batch: seq<Edit>): set<KeyPath> {
    set k | 0 <= k < |batch| && batch[k].pending.None? && batch[k].key in current.overrides :: batch[k].key
  }

  /** Pending values as the fragment reads them back. */
  predicate FragmentBatch(batch: seq<Edit>) {
    forall k :: 0 <= k < |batch| && batch[k].pending.Some? ==> InFragment(batch[k].pending.value)
  }

  lemma PrintedIsText(value: Value)
    requires InFragment(value)
    ensures Print(value) != [] && NEWLINE !in Print(value)
  {
    PrintIsInline(value);
  }

  /** What one planned replacement does to its binding. */
  lemma ReplacementOfBinding(current: Snapshot, all: seq<Located>, edit: Edit, x: Located)
    requires BindingsOfDocument(current, all) && x in all && edit.key == x.key
    requires edit.key in current.overrides && current.overrides[edit.key].assignment.Some?
    requires edit.pending.Some? ==> InFragment(edit.pending.value)
    ensures var r := ReplacementOf(TOML, current, edit);
      if edit.pending.None? then Removes(x, r) else Sets(x, r)
  {
    hide Locate, Scanner.RetainedOf, Scanner.AssignmentOf, Print, KeysOf, Distinct, MapOf, NextLine, LineStart;
    var doc := current.revision.bytes;
    EntryOfBinding(current, all, x);
    LocatedAtStart(current, all);
    LocatedOnLine(doc, 0, [], x);
    LocatedHoldsNoComment(doc, 0, [], x);
    if edit.pending.Some? {
      PrintedIsText(edit.pending.value);
    } else {
      AssignmentStartsLine(doc, x);
    }
  }

  // ---------------------------------------------------------------------------
  // Planned insertions

  function NewKeys(current: Snapshot, batch: seq<Edit>): set<KeyPath> {
    set k | 0 <= k < |batch| && batch[k].pending.Some? && batch[k].key !in current.overrides :: batch[k].key
  }

  function TotalSlots(insertions: Insertions): nat {
    if insertions == [] then 0 else Slots(insertions[0].1) + TotalSlots(insertions[1..])
  }

  lemma {:induction false} TotalSlotsLast(insertions: Insertions)
    requires insertions != []
    ensures var last := |insertions| - 1;
      TotalSlots(insertions) == TotalSlots(insertions[..last]) + Slots(insertions[last].1)
  {
    hide Slots;
    var last := |insertions| - 1;
    if last > 0 {
      TotalSlotsLast(insertions[1..]);
      assert insertions[1..][..last - 1] == insertions[..last][1..];
    }
  }

  predicate AllKeyLines(insertions: Insertions) {
    forall i :: 0 <= i < |insertions| ==> KeyLines(insertions[i].1)
  }

  lemma OneKeyLine(line: ByteString)
    requires line != [] && line[0] == QUOTE && IsLine(line)
    ensures KeyLines(line) && Slots(line) == 1
  {
    assert line[|line|..] == [];
    assert KeyLines([]) && Slots([]) == 0;
  }

  lemma PrintedKey(key: Key)
    ensures KeyText(TOML, [key]) == PrintText(key)
    ensures NEWLINE !in PrintText(key)
  {
    PrintIsInline(Text(key));
    assert KeyText(TOML, [key]) == Print(Text(key)) by {
      hide Print;
      assert [key][..0] == [];
      assert KeyText(TOML, []) == [];
      assert [] + Print(Text(key)) == Print(Text(key));
    }
  }

  lemma InsertedLineIsKeyLine(bytes: ByteString, key: Key, value: Value)
    requires InFragment(value)
    ensures KeyLines(InsertedLine(TOML, bytes, key, value)) && Slots(InsertedLine(TOML, bytes, key, value)) == 1
  {
    hide KeyLines, Slots, Print, PrintText, KeyText, HasCrlf;
    PrintedKey(key);
    PrintedIsText(value);
    var line := InsertedLine(TOML, bytes, key, value);
    var body := PrintText(key) + ASSIGN + Print(value);
    assert line == body + LineEnding(bytes);
    assert NEWLINE !in body;
    assert OnlyLast(LineEnding(bytes));
    OnlyLastOfParts(body, [], LineEnding(bytes));
    assert body + [] + LineEnding(bytes) == line;
    OneLine(line);
    StartsWithQuote(key);
    assert line[0] == PrintText(key)[0];
    OneKeyLine(line);
  }

  lemma StartsWithQuote(key: Key)
    ensures PrintText(key) != [] && PrintText(key)[0] == QUOTE
  {}

  lemma {:induction false} AppendedKeyLines(insertions: Insertions, parent: KeyPath, text: ByteString)
    requires AllKeyLines(insertions) && KeyLines(text)
    ensures AllKeyLines(Appended(insertions, parent, text))
    ensures TotalSlots(Appended(insertions, parent, text)) == TotalSlots(insertions) + Slots(text)
  {
    hide KeyLines, Slots, PathLess;
    if insertions == [] {
      assert [(parent, text)][1..] == [];
    } else if insertions[0].0 == parent {
      KeyLinesAreInsertLines(insertions[0].1);
      InsertLinesJoin(insertions[0].1, text);
    } else if !PathLess(parent, insertions[0].0) {
      AppendedKeyLines(insertions[1..], parent, text);
    }
  }

  lemma ConflictsGrow(current: Snapshot, edit: Edit, plan: Plan)
    requires edit.key != [] && PlanOne(TOML, current, edit, plan).Some?
    ensures PlanOne(TOML, current, edit, plan).value.conflicts == [] ==> plan.conflicts == []
    ensures var after := PlanOne(TOML, current, edit, plan).value;
      var adds := edit.key !in current.overrides && edit.pending.Some?;
      && (after.conflicts == [] && adds ==>
           after.insertions
           == Appended(plan.insertions, edit.key[..|edit.key| - 1],
                       InsertedLine(TOML, current.revision.bytes, edit.key[|edit.key| - 1], edit.pending.value)))
      && (!adds ==> after.insertions == plan.insertions)
  {
    hide InsertedLine, Appended, ReplacementOf;
  }

  lemma NewKeysLast(current: Snapshot, batch: seq<Edit>)
    requires batch != []
    ensures var last := |batch| - 1;
      NewKeys(current, batch) == NewKeys(current, batch[..last])
        + if batch[last].pending.Some? && batch[last].key !in current.overrides then {batch[last].key} else {}
    ensures var last := |batch| - 1;
      batch[last].key in NewKeys(current, batch[..last]) ==> KeyUsed(batch[..last], batch[last].key)
  {}

  /** The planned insertions are one line per new key. */
  lemma {:induction false} PlannedInsertionLines(current: Snapshot, batch: seq<Edit>)
    requires PlanAll(TOML, current, batch).Some? && PlanAll(TOML, current, batch).value.conflicts == []
    requires FragmentBatch(batch)
    ensures var insertions := PlanAll(TOML, current, batch).value.insertions;
      AllKeyLines(insertions) && TotalSlots(insertions) == |NewKeys(current, batch)|
    decreases |batch|
  {
    hide PlanOne, NewKeys, KeyLines, Slots, InsertedLine, KeyUsed;
    if batch == [] {
      NoNewKeys(current);
    } else {
      var last := |batch| - 1;
      var front, edit := batch[..last], batch[last];
      ConflictsGrow(current, edit, PlanAll(TOML, current, front).value);
      PlannedInsertionLines(current, front);
      NewKeysLast(current, batch);
      if edit.pending.Some? && edit.key !in current.overrides {
        var line := InsertedLine(TOML, current.revision.bytes, edit.key[|edit.key| - 1], edit.pending.value);
        InsertedLineIsKeyLine(current.revision.bytes, edit.key[|edit.key| - 1], edit.pending.value);
        AppendedKeyLines(PlanAll(TOML, current, front).value.insertions, edit.key[..|edit.key| - 1], line);
      }
    }
  }

  lemma NoNewKeys(current: Snapshot)
    ensures NewKeys(current, []) == {}
  {}

  // ---------------------------------------------------------------------------
  // Where insertions go

  lemma {:induction false} KeyTextIsInline(path: KeyPath)
    ensures NEWLINE !in KeyText(TOML, path)
  {
    if path != [] {
      KeyTextIsInline(path[..|path| - 1]);
      PrintedIsText(Text(path[|path| - 1]));
    }
  }

  /** A line that binds nothing. */
  lemma OneBareLine(line: ByteString)
    requires IsLine(line) && (line[0] == OPEN_BRACKET || line[0] == RETURN || line[0] == NEWLINE)
    ensures InsertLines(line) && Slots(line) == 0
  {
    assert line[|line|..] == [];
    assert InsertLines([]) && Slots([]) == 0;
  }

  lemma LineEndingIsLine(bytes: ByteString)
    ensures InsertLines(LineEnding(bytes)) && Slots(LineEnding(bytes)) == 0
  {
    OneLine(LineEnding(bytes));
    OneBareLine(LineEnding(bytes));
  }

  function HeaderLine(bytes: ByteString, parent: KeyPath): ByteString {
    [OPEN_BRACKET] + KeyText(TOML, parent) + [CLOSE_BRACKET] + LineEnding(bytes)
  }

  lemma HeaderLineIsLine(bytes: ByteString, parent: KeyPath)
    ensures InsertLines(HeaderLine(bytes, parent)) && Slots(HeaderLine(bytes, parent)) == 0
  {
    hide KeyText, HasCrlf;
    KeyTextIsInline(parent);
    OneLine(HeaderLine(bytes, parent));
    OneBareLine(HeaderLine(bytes, parent));
  }

  /** The separator before an insertion: a line ending unless a line starts there. */
  function Separator(doc: ByteString, point: nat): ByteString
    requires point <= |doc|
  {
    if LineStart(doc, point) then [] else LineEnding(doc)
  }

  lemma SeparatedLines(doc: ByteString, text: ByteString)
    requires InsertLines(text)
    ensures EndLines(doc, Separator(doc, |doc|) + text)
    ensures Slots(Separator(doc, |doc|) + text) == Slots(text)
  {
    hide InsertLines, Slots, HasCrlf;
    if LineStart(doc, |doc|) {
      assert [] + text == text;
    } else {
      LineEndingIsLine(doc);
      InsertLinesJoin(LineEnding(doc), text);
      assert LineEnding(doc) <= LineEnding(doc) + text;
    }
  }

  lemma InsertionParts(current: Snapshot, parent: KeyPath, text: ByteString)
    ensures var doc := current.revision.bytes;
      var point := PointOf(TOML, current, parent);
      match point
      case Some(p) => p <= |doc| && InsertionOf(TOML, current, parent, text) == Replacement(Span(p, p), Separator(doc, p) + text)
      case None => InsertionOf(TOML, current, parent, text)
                   == Replacement(Span(|doc|, |doc|), Separator(doc, |doc|) + (HeaderLine(doc, parent) + text))
  {
    hide PointFrom, KeyText, HasCrlf;
    var doc := current.revision.bytes;
    if PointOf(TOML, current, parent).None? {
      var sep := Separator(doc, |doc|);
      assert InsertionOf(TOML, current, parent, text).text
          == sep + [OPEN_BRACKET] + KeyText(TOML, parent) + [CLOSE_BRACKET] + LineEnding(doc) + text;
      assert sep + [OPEN_BRACKET] + KeyText(TOML, parent) + [CLOSE_BRACKET] + LineEnding(doc) + text
          == sep + (HeaderLine(doc, parent) + text);
    } else {
      PointInside(current, parent);
    }
  }

  lemma PointInside(current: Snapshot, parent: KeyPath)
    ensures var doc := current.revision.bytes;
      match PointOf(TOML, current, parent)
      case Some(p) => p <= |doc| && (LineStart(doc, p) || p == |doc|)
      case None => true
  {
    if parent != [] && PointFrom(TOML, current, parent, 0).Some? {
      PointIsLineStart(TOML, current, parent, 0);
    }
  }

  /** Insertions inside the document are key lines at a line start; those at its
      end are lines after a line ending. */
  lemma InsertionPlace(current: Snapshot, parent: KeyPath, text: ByteString)
    requires KeyLines(text)
    ensures var doc, r := current.revision.bytes, InsertionOf(TOML, current, parent, text);
      && IsInsertion(r) && r.span.begin <= |doc|
      && (r.span.begin < |doc| ==> LineStart(doc, r.span.begin) && KeyLines(r.text))
      && (r.span.begin == |doc| ==> EndLines(doc, r.text))
      && InsertLines(r.text) && Slots(r.text) == Slots(text)
  {
    hide KeyLines, InsertLines, Slots, InsertionOf, PointOf, HeaderLine;
    var doc, point := current.revision.bytes, PointOf(TOML, current, parent);
    KeyLinesAreInsertLines(text);
    InsertionParts(current, parent, text);
    PointInside(current, parent);
    match point {
      case Some(p) =>
        if p == |doc| {
          SeparatedLines(doc, text);
        } else {
          assert [] + text == text;
        }
      case None =>
        HeaderLineIsLine(doc, parent);
        InsertLinesJoin(HeaderLine(doc, parent), text);
        SeparatedLines(doc, HeaderLine(doc, parent) + text);
    }
  }

  lemma EndLinesJoin(doc: ByteString, a: ByteString, b: ByteString)
    requires EndLines(doc, a) && EndLines(doc, b)
    ensures EndLines(doc, a + b)
  {
    hide InsertLines, Slots;
    InsertLinesJoin(a, b);
    if a == [] {
      assert a + b == b;
    }
  }

  /** What inserted text looks like at every point. */
  ghost predicate PlacedAt(doc: ByteString, p: nat, text: ByteString) {
    && (p < |doc| && !LineStart(doc, p) ==> text == [])
    && (p < |doc| ==> KeyLines(text))
    && (p == |doc| ==> EndLines(doc, text))
    && InsertLines(text)
  }

  lemma NothingPlaced(doc: ByteString, p: nat)
    ensures PlacedAt(doc, p, [])
  {}

  lemma PlacedTogether(doc: ByteString, p: nat, a: ByteString, b: ByteString)
    requires PlacedAt(doc, p, a) && PlacedAt(doc, p, b)
    ensures PlacedAt(doc, p, a + b) && Slots(a + b) == Slots(a) + Slots(b)
  {
    hide InsertLines, KeyLines, Slots;
    InsertLinesJoin(a, b);
    if p == |doc| {
      EndLinesJoin(doc, a, b);
    }
  }

  /** The slots of one insertion at or after `p`. */
  function SlotsFrom(size: nat, r: Replacement, p: nat): nat {
    if IsInsertion(r) && p <= r.span.begin <= size then Slots(r.text) else 0
  }

  lemma {:induction false} InsertedSlotsAppend(doc: ByteString, rs: seq<Replacement>, r: Replacement, p: nat)
    requires p <= |doc| && forall q: nat :: p <= q <= |doc| ==> PlacedAt(doc, q, InsertText(rs, q))
    requires IsInsertion(r) ==> PlacedAt(doc, r.span.begin, r.text)
    ensures InsertedSlots(|doc|, rs + [r], p) == InsertedSlots(|doc|, rs, p) + SlotsFrom(|doc|, r, p)
    decreases |doc| - p
  {
    hide PlacedAt, Slots, InsertText;
    assert PlacedAt(doc, p, InsertText(rs, p));
    InsertTextAppend(rs, r, p);
    if r.span == Span(p, p) {
      PlacedTogether(doc, p, InsertText(rs, p), r.text);
    } else {
      assert InsertText(rs, p) + [] == InsertText(rs, p);
    }
    if p < |doc| {
      InsertedSlotsAppend(doc, rs, r, p + 1);
    }
  }

  lemma {:induction false} NoInsertedSlots(size: nat, p: nat)
    requires p <= size
    ensures InsertedSlots(size, [], p) == 0
    decreases size - p
  {
    if p < size {
      NoInsertedSlots(size, p + 1);
    }
  }

  /** All insertions of a plan are well placed and have no more slots than planned. */
  lemma {:induction false} InsertionsPlaced(current: Snapshot, insertions: Insertions)
    requires AllKeyLines(insertions)
    ensures var doc, rs := current.revision.bytes, InsertionsOf(TOML, current, insertions);
      && (forall q: nat :: q <= |doc| ==> PlacedAt(doc, q, InsertText(rs, q)))
      && InsertedSlots(|doc|, rs, 0) == TotalSlots(insertions)
    decreases |insertions|
  {
    hide PlacedAt, Slots, InsertText, KeyLines, InsertionOf, InsertedSlots, TotalSlots;
    var doc := current.revision.bytes;
    if insertions == [] {
      EmptyPlaced(doc);
    } else {
      var last := |insertions| - 1;
      var front, item := insertions[..last], insertions[last];
      InsertionsPlaced(current, front);
      TotalSlotsLast(insertions);
      InsertionPlace(current, item.0, item.1);
      var rs, r := InsertionsOf(TOML, current, front), InsertionOf(TOML, current, item.0, item.1);
      PlacedOne(current, item.0, item.1);
      InsertedSlotsAppend(doc, rs, r, 0);
      forall q: nat | q <= |doc| ensures PlacedAt(doc, q, InsertText(rs + [r], q)) {
        InsertTextAppend(rs, r, q);
        if r.span == Span(q, q) {
          PlacedTogether(doc, q, InsertText(rs, q), r.text);
        } else {
          assert InsertText(rs, q) + [] == InsertText(rs, q);
        }
      }
    }
  }

  lemma EmptyPlaced(doc: ByteString)
    ensures forall q: nat :: q <= |doc| ==> PlacedAt(doc, q, InsertText([], q))
    ensures InsertedSlots(|doc|, [], 0) == TotalSlots([])
    ensures forall current: Snapshot :: InsertionsOf(TOML, current, []) == []
  {
    NoInsertedSlots(|doc|, 0);
    forall q: nat | q <= |doc| ensures PlacedAt(doc, q, InsertText([], q)) {
      NothingPlaced(doc, q);
    }
  }

  lemma PlacedOne(current: Snapshot, parent: KeyPath, text: ByteString)
    requires KeyLines(text)
    ensures var r := InsertionOf(TOML, current, parent, text);
      PlacedAt(current.revision.bytes, r.span.begin, r.text)
  {
    hide KeyLines, InsertLines, InsertionOf;
    InsertionPlace(current, parent, text);
  }

  lemma {:induction false} InsertTextJoin(a: seq<Replacement>, b: seq<Replacement>, p: nat)
    requires forall r :: r in a ==> !IsInsertion(r)
    ensures InsertText(a + b, p) == InsertText(b, p)
  {
    if a == [] {
      assert a + b == b;
    } else {
      assert (a + b)[1..] == a[1..] + b && (a + b)[0] == a[0] && a[0] in a;
      InsertTextJoin(a[1..], b, p);
    }
  }

  lemma {:induction false} SlotsByText(size: nat, rs: seq<Replacement>, ts: seq<Replacement>, p: nat)
    requires p <= size && forall q: nat :: InsertText(rs, q) == InsertText(ts, q)
    ensures InsertedSlots(size, rs, p) == InsertedSlots(size, ts, p)
    decreases size - p
  {
    if p < size {
      SlotsByText(size, rs, ts, p + 1);
    }
  }
}
