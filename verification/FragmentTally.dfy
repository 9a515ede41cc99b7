/** Counting the bindings of a patched document, line by line. */
module FragmentTally {
  import opened Bytes
  import opened Splice
  import opened Documents
  import opened Fragment
  import opened FragmentLines
  import opened FragmentFrame

  // ---------------------------------------------------------------------------
  // The replacement of a line

  lemma HeadOfLine(doc: ByteString, i: nat, section: KeyPath, x: Located)
    requires i < |doc| && LineStart(doc, i) && Locate(doc, i, section).Some?
    requires x in Locate(doc, i, section).value && x.line == i
    ensures var kind := Classify(doc[i..NextLine(doc, i)]);
      kind.Assign? && x == Located(section + [kind.key], kind.value, i, Span(i + kind.begin, i + kind.end))
  {
    hide *;
    LocateStep(doc, i, section);
    var next, kind := NextLine(doc, i), Classify(doc[i..NextLine(doc, i)]);
    var rest := Locate(doc, next, SectionAfter(kind, section)).value;
    if x in rest {
      NextLineStarts(doc, i);
      LocatedOnLine(doc, next, SectionAfter(kind, section), x);
      assert false;
    }
  }

  /** The bindings from line `i` on are all those located at or after it. */
  ghost predicate SuffixOf(all: seq<Located>, i: nat, suffix: seq<Located>) {
    && (forall x :: x in all && x.line >= i ==> x in suffix)
    && (forall x :: x in suffix ==> x in all)
  }

  lemma SuffixStep(doc: ByteString, all: seq<Located>, i: nat, section: KeyPath)
    requires i < |doc| && LineStart(doc, i) && Locate(doc, i, section).Some?
    requires SuffixOf(all, i, Locate(doc, i, section).value)
    ensures var next, kind := NextLine(doc, i), Classify(doc[i..NextLine(doc, i)]);
      && Locate(doc, next, SectionAfter(kind, section)).Some?
      && SuffixOf(all, next, Locate(doc, next, SectionAfter(kind, section)).value)
  {
    hide Locate, Classify, Bytes.Find;
    LocateStep(doc, i, section);
    var next, kind := NextLine(doc, i), Classify(doc[i..NextLine(doc, i)]);
    var rest := Locate(doc, next, SectionAfter(kind, section)).value;
    forall x | x in all && x.line >= next ensures x in rest {
      assert x in Locate(doc, i, section).value;
    }
  }

  /** What the line-wise plan does to line `i`. */
  lemma LineReplacement(doc: ByteString, all: seq<Located>, rs: seq<Replacement>, edited: set<KeyPath>,
                        removed: set<KeyPath>, i: nat, section: KeyPath) returns (r: Option<Replacement>)
    requires LineWise(doc, all, rs, edited, removed) && i < |doc| && LineStart(doc, i)
    requires forall x :: x in all ==> OnLine(doc, x) && x.line < |doc|
    requires Locate(doc, i, section).Some? && SuffixOf(all, i, Locate(doc, i, section).value)
    ensures OnlyReplacement(doc, rs, i, r)
    ensures var kind := Classify(doc[i..NextLine(doc, i)]);
      && EditsLine(i, kind, r)
      && (r.Some? ==> section + [kind.key] in edited)
      && (kind.Assign? && section + [kind.key] in removed ==> r.Some? && r.value.text == [])
  {
    hide Locate, Classify, Bytes.Find, InsertText, StartingAt, LineWise;
    var n := NextLine(doc, i);
    if p: nat :| i <= p < n && StartingAt(rs, p).Some? {
      r := StartingAt(rs, p);
      EditOfLine(doc, all, rs, edited, removed, i, section, r.value);
      forall q: nat | i <= q < n ensures StartingAt(rs, q) == if q == p then r else None {
        if StartingAt(rs, q).Some? {
          EditOfLine(doc, all, rs, edited, removed, i, section, StartingAt(rs, q).value);
        }
      }
    } else {
      r := None;
    }
    NoInsertionInside(doc, all, rs, edited, removed, i);
    RemovedHasReplacement(doc, all, rs, edited, removed, i, section);
  }

  lemma NoInsertionInside(doc: ByteString, all: seq<Located>, rs: seq<Replacement>, edited: set<KeyPath>,
                          removed: set<KeyPath>, i: nat)
    requires LineWise(doc, all, rs, edited, removed) && i < |doc|
    ensures forall p: nat :: i < p < NextLine(doc, i) ==> InsertText(rs, p) == []
  {
    hide InsertText, StartingAt, Bytes.Find;
    LineBytes(doc, i);
  }

  lemma EditOfLine(doc: ByteString, all: seq<Located>, rs: seq<Replacement>, edited: set<KeyPath>,
                   removed: set<KeyPath>, i: nat, section: KeyPath, r: Replacement)
    requires LineWise(doc, all, rs, edited, removed) && i < |doc| && LineStart(doc, i)
    requires forall x :: x in all ==> OnLine(doc, x) && x.line < |doc|
    requires Locate(doc, i, section).Some? && SuffixOf(all, i, Locate(doc, i, section).value)
    requires r in rs && !IsInsertion(r) && i <= r.span.begin < NextLine(doc, i)
    ensures var kind := Classify(doc[i..NextLine(doc, i)]);
      && kind.Assign? && section + [kind.key] in edited
      && r.span.begin == (if section + [kind.key] in removed then i else i + kind.begin)
      && (section + [kind.key] in removed ==> r.text == [])
      && EditsLine(i, kind, Some(r)) && i <= r.span.begin < r.span.end <= NextLine(doc, i)
  {
    hide Locate, Classify, Bytes.Find, InsertText, StartingAt, LineWise;
    var x := ReplacementOnLine(doc, all, rs, edited, removed, i, r);
    HeadOfLine(doc, i, section, x);
  }

  lemma RemovedHasReplacement(doc: ByteString, all: seq<Located>, rs: seq<Replacement>, edited: set<KeyPath>,
                              removed: set<KeyPath>, i: nat, section: KeyPath)
    requires LineWise(doc, all, rs, edited, removed) && i < |doc| && LineStart(doc, i)
    requires forall x :: x in all ==> OnLine(doc, x) && x.line < |doc|
    requires Locate(doc, i, section).Some? && SuffixOf(all, i, Locate(doc, i, section).value)
    ensures var kind := Classify(doc[i..NextLine(doc, i)]);
      kind.Assign? && section + [kind.key] in removed ==>
        StartingAt(rs, i).Some? && StartingAt(rs, i).value.text == []
  {
    hide Locate, Classify, Bytes.Find, InsertText, StartingAt, LineWise;
    var kind := Classify(doc[i..NextLine(doc, i)]);
    if kind.Assign? && section + [kind.key] in removed {
      LocateStep(doc, i, section);
      var x := Located(section + [kind.key], kind.value, i, Span(i + kind.begin, i + kind.end));
      assert x in Locate(doc, i, section).value;
      RemovedStarts(doc, all, rs, edited, removed, x);
      EditOfLine(doc, all, rs, edited, removed, i, section, StartingAt(rs, i).value);
    }
  }

  lemma RemovedStarts(doc: ByteString, all: seq<Located>, rs: seq<Replacement>, edited: set<KeyPath>,
                      removed: set<KeyPath>, x: Located)
    requires LineWise(doc, all, rs, edited, removed) && x in all && x.key in removed
    ensures StartingAt(rs, x.line).Some?
  {
    hide InsertText, StartingAt;
  }

  // ---------------------------------------------------------------------------
  // The tally

  /** Bindings whose keys are not removed. */
  function Kept(located: seq<Located>, removed: set<KeyPath>): nat {
    if located == [] then 0
    else (if located[0].key in removed then 0 else 1) + Kept(located[1..], removed)
  }

  /** Slots of all text inserted from point `p` on. */
  function InsertedSlots(size: nat, rs: seq<Replacement>, p: nat): nat
    requires p <= size
    decreases size - p
  {
    Slots(InsertText(rs, p)) + if p < size then InsertedSlots(size, rs, p + 1) else 0
  }

  lemma {:induction false} NoSlotsBetween(size: nat, rs: seq<Replacement>, i: nat, n: nat)
    requires i <= n <= size && forall p: nat :: i <= p < n ==> InsertText(rs, p) == []
    ensures InsertedSlots(size, rs, i) == InsertedSlots(size, rs, n)
    decreases n - i
  {
    if i < n {
      assert InsertText(rs, i) == [];
      NoSlotsBetween(size, rs, i + 1, n);
    }
  }

  lemma SlotsOfLine(size: nat, rs: seq<Replacement>, i: nat, n: nat)
    requires i < n <= size && forall p: nat :: i < p < n ==> InsertText(rs, p) == []
    ensures InsertedSlots(size, rs, i) == Slots(InsertText(rs, i)) + InsertedSlots(size, rs, n)
  {
    NoSlotsBetween(size, rs, i + 1, n);
  }

  lemma LastSlots(size: nat, rs: seq<Replacement>)
    ensures InsertedSlots(size, rs, size) == Slots(InsertText(rs, size))
  {}

  /** Unedited old bindings are still there, and there are at most as many new
      bindings as kept old ones plus inserted lines. */
  ghost predicate Tally(located: seq<Located>, bindings: seq<Binding>, edited: set<KeyPath>, removed: set<KeyPath>, slots: nat) {
    && (forall x :: x in located && x.key !in edited ==> Pair(x) in bindings)
    && |bindings| <= Kept(located, removed) + slots
  }

  /** From the rest of the document back over one line. */
  lemma TallyLine(head: seq<Located>, rest: seq<Located>, line: seq<Binding>, more: seq<Binding>,
                  edited: set<KeyPath>, removed: set<KeyPath>, slots: nat)
    requires Tally(rest, more, edited, removed, slots)
    requires |head| <= 1 && |line| <= Kept(head, removed)
    requires forall x :: x in head && x.key !in edited ==> Pair(x) in line
    ensures Tally(head + rest, line + more, edited, removed, slots)
  {
    if head == [] {
      assert head + rest == rest && line + more == more;
    } else {
      assert (head + rest)[1..] == rest;
      assert head[1..] == [];
    }
  }

  lemma TallyInserted(located: seq<Located>, front: seq<Binding>, back: seq<Binding>,
                      edited: set<KeyPath>, removed: set<KeyPath>, slots: nat, more: nat)
    requires Tally(located, back, edited, removed, slots) && |front| <= more
    ensures Tally(located, front + back, edited, removed, more + slots)
  {}

  /** The binding of a line, as a list. */
  function HeadOf(kind: LineKind, section: KeyPath, i: nat): seq<Located> {
    if kind.Assign? then [Located(section + [kind.key], kind.value, i, Span(i + kind.begin, i + kind.end))] else []
  }

  function BindingOf(kind: LineKind, section: KeyPath): seq<Binding> {
    if kind.Assign? then [(section + [kind.key], kind.value)] else []
  }

  lemma LineThenParts(kind: LineKind, rest: ByteString, section: KeyPath)
    requires LineThen(kind, rest, section).Some?
    ensures kind != Bad && Bindings(rest, SectionAfter(kind, section)).Some?
    ensures LineThen(kind, rest, section).value
         == BindingOf(kind, section) + Bindings(rest, SectionAfter(kind, section)).value
  {
    hide Bindings;
    if !kind.Assign? {
      assert [] + Bindings(rest, SectionAfter(kind, section)).value == Bindings(rest, SectionAfter(kind, section)).value;
    }
  }

  lemma LocateParts(doc: ByteString, i: nat, section: KeyPath)
    requires i < |doc| && Locate(doc, i, section).Some?
    ensures var next, kind := NextLine(doc, i), Classify(doc[i..NextLine(doc, i)]);
      && kind != Bad
      && Locate(doc, next, SectionAfter(kind, section)).Some?
      && Locate(doc, i, section).value
         == HeadOf(kind, section, i) + Locate(doc, next, SectionAfter(kind, section)).value
  {
    hide Locate, Classify, NextLine;
    LocateStep(doc, i, section);
    var next, kind := NextLine(doc, i), Classify(doc[i..NextLine(doc, i)]);
    if !kind.Assign? {
      assert [] + Locate(doc, next, SectionAfter(kind, section)).value
          == Locate(doc, next, SectionAfter(kind, section)).value;
    }
  }

  /** The edited line binds no more than it kept, and its old binding if unedited. */
  lemma EditedLineTally(doc: ByteString, i: nat, section: KeyPath, r: Option<Replacement>, ending: ByteString,
                        edited: set<KeyPath>, removed: set<KeyPath>)
    requires i < |doc| && EditsLine(i, Classify(doc[i..NextLine(doc, i)]), r) && Ending(doc, i, ending)
    requires var kind := Classify(doc[i..NextLine(doc, i)]);
      && kind != Bad
      && (r.Some? ==> section + [kind.key] in edited)
      && (kind.Assign? && section + [kind.key] in removed ==> r.Some? && r.value.text == [])
    ensures r.Some? ==> i <= r.value.span.begin < r.value.span.end <= NextLine(doc, i)
    ensures var kind, out := Classify(doc[i..NextLine(doc, i)]), Classify(LineOut(doc, i, r) + ending);
      && SectionAfter(out, section) == SectionAfter(kind, section)
      && |BindingOf(out, section)| <= Kept(HeadOf(kind, section, i), removed)
      && forall x :: x in HeadOf(kind, section, i) && x.key !in edited ==> Pair(x) in BindingOf(out, section)
  {
    hide Classify, NextLine, LineOut;
    LineOutKind(doc, i, r, ending);
    var kind, out := Classify(doc[i..NextLine(doc, i)]), Classify(LineOut(doc, i, r) + ending);
    KeptOne(HeadOf(kind, section, i), removed);
  }

  lemma KeptOne(head: seq<Located>, removed: set<KeyPath>)
    requires |head| <= 1
    ensures Kept(head, removed) == if head == [] || head[0].key in removed then 0 else 1
  {}

  /** The tally of one line and everything after it, given that of the rest. */
  lemma TallyStep(doc: ByteString, i: nat, section: KeyPath, r: Option<Replacement>, ending: ByteString,
                  rest: ByteString, inserted: ByteString, edited: set<KeyPath>, removed: set<KeyPath>, slots: nat)
    returns (more: seq<Binding>)
    requires i < |doc| && EditsLine(i, Classify(doc[i..NextLine(doc, i)]), r) && Ending(doc, i, ending)
    requires Locate(doc, i, section).Some? && KeyLines(inserted)
    requires var kind := Classify(doc[i..NextLine(doc, i)]);
      && (r.Some? ==> section + [kind.key] in edited)
      && (kind.Assign? && section + [kind.key] in removed ==> r.Some? && r.value.text == [])
    requires doc[NextLine(doc, i) - 1] != NEWLINE && ending == [] ==> rest == []
    requires r.Some? ==> i <= r.value.span.begin < r.value.span.end <= NextLine(doc, i)
    requires Bindings(inserted + ((LineOut(doc, i, r) + ending) + rest), section).Some?
    ensures var next, kind := NextLine(doc, i), Classify(doc[i..NextLine(doc, i)]);
      && Locate(doc, next, SectionAfter(kind, section)).Some?
      && Bindings(rest, SectionAfter(kind, section)) == Some(more)
      && (Tally(Locate(doc, next, SectionAfter(kind, section)).value, more, edited, removed, slots) ==>
          Tally(Locate(doc, i, section).value,
                Bindings(inserted + ((LineOut(doc, i, r) + ending) + rest), section).value,
                edited, removed, Slots(inserted) + slots))
  {
    hide *;
    LocateParts(doc, i, section);
    KeyLinesAreInsertLines(inserted);
    var out := LineOut(doc, i, r) + ending;
    var later, front, back := InsertedLinesBindLittle(inserted, out + rest, section);
    BindingsOfEditedLine(doc, i, r, ending, rest, section);
    LineThenParts(Classify(out), rest, section);
    EditedLineTally(doc, i, section, r, ending, edited, removed);
    var kind, next := Classify(doc[i..NextLine(doc, i)]), NextLine(doc, i);
    more := Bindings(rest, SectionAfter(kind, section)).value;
    var located := Locate(doc, next, SectionAfter(kind, section)).value;
    if Tally(located, more, edited, removed, slots) {
      HeadIsShort(kind, section, i);
      TallyLine(HeadOf(kind, section, i), located, BindingOf(Classify(out), section), more, edited, removed, slots);
      TallyInserted(Locate(doc, i, section).value, front, back, edited, removed, slots, Slots(inserted));
    }
  }

  lemma HeadIsShort(kind: LineKind, section: KeyPath, i: nat)
    ensures |HeadOf(kind, section, i)| <= 1
  {}

  // ---------------------------------------------------------------------------
  // The whole document

  lemma NothingAfterEnd(doc: ByteString, all: seq<Located>, rs: seq<Replacement>, edited: set<KeyPath>,
                        removed: set<KeyPath>)
    requires LineWise(doc, all, rs, edited, removed)
    requires forall x :: x in all ==> OnLine(doc, x) && x.line < |doc|
    ensures Substituted(doc, rs, |doc|) == InsertText(rs, |doc|)
  {
    var r := StartingAt(rs, |doc|);
    if r.Some? {
      var x :| x in all && x.key in edited && if x.key in removed then Removes(x, r.value) else Sets(x, r.value);
    }
    assert InsertText(rs, |doc|) + [] == InsertText(rs, |doc|);
  }

  /** Text inserted at the end, after the line ending it may begin with. */
  lemma EndText(doc: ByteString, text: ByteString) returns (ending: ByteString, rest: ByteString)
    requires EndLines(doc, text)
    ensures text == ending + rest && InsertLines(rest) && Slots(rest) == Slots(text)
    ensures ending == [] || ending == [NEWLINE] || ending == [RETURN, NEWLINE]
    ensures LineStart(doc, |doc|) ==> ending == []
    ensures !LineStart(doc, |doc|) && ending == [] ==> rest == []
  {
    if LineStart(doc, |doc|) || text == [] {
      ending, rest := [], text;
    } else {
      ending := if text[0] == NEWLINE then [NEWLINE] else [RETURN, NEWLINE];
      assert ending <= text;
      rest := text[|ending|..];
      assert text[|ending| - 1] == NEWLINE;
      Scanner.FindUnique(text, NEWLINE, 0, |ending| - 1);
      assert NextLine(text, 0) == |ending|;
    }
  }

  lemma InsertedTally(text: ByteString, section: KeyPath, edited: set<KeyPath>, removed: set<KeyPath>)
    requires InsertLines(text) && Bindings(text, section).Some?
    ensures Tally([], Bindings(text, section).value, edited, removed, Slots(text))
  {
    hide InsertLines, Slots;
    assert text + [] == text;
    var later, front, back := InsertedLinesBindLittle(text, [], section);
    assert back == [];
  }

  lemma LocateEnd(doc: ByteString, section: KeyPath)
    ensures Locate(doc, |doc|, section) == Some([])
  {}

  /** From every line start on, the patched text keeps the unedited bindings and
      binds at most as much as was kept or inserted. */
  lemma {:induction false} PatchedTally(doc: ByteString, all: seq<Located>, rs: seq<Replacement>, edited: set<KeyPath>,
                                        removed: set<KeyPath>, i: nat, section: KeyPath)
    requires LineWise(doc, all, rs, edited, removed) && i <= |doc| && LineStart(doc, i)
    requires forall x :: x in all ==> OnLine(doc, x) && x.line < |doc|
    requires Locate(doc, i, section).Some? && SuffixOf(all, i, Locate(doc, i, section).value)
    requires Bindings(Substituted(doc, rs, i), section).Some?
    ensures Tally(Locate(doc, i, section).value, Bindings(Substituted(doc, rs, i), section).value, edited, removed,
                  InsertedSlots(|doc|, rs, i))
    decreases |doc| - i
  {
    hide *;
    NothingAfterEnd(doc, all, rs, edited, removed);
    LastSlots(|doc|, rs);
    LinesInserted(doc, all, rs, edited, removed, i);
    LocateEnd(doc, section);
    if i == |doc| {
      InsertedTally(InsertText(rs, |doc|), section, edited, removed);
    } else {
      var n := NextLine(doc, i);
      var kind := Classify(doc[i..n]);
      var r := LineReplacement(doc, all, rs, edited, removed, i, section);
      EditFits(doc, i, r);
      SubstitutedLine(doc, rs, i, r);
      NoInsertionInside(doc, all, rs, edited, removed, i);
      SlotsOfLine(|doc|, rs, i, n);
      SuffixStep(doc, all, i, section);
      var out, slots := LineOut(doc, i, r), InsertedSlots(|doc|, rs, n);
      if LineStart(doc, n) {
        assert out + [] == out;
        EndingFits(doc, i, []);
        var more := TallyStep(doc, i, section, r, [], Substituted(doc, rs, n), InsertText(rs, i), edited, removed, slots);
        PatchedTally(doc, all, rs, edited, removed, n, SectionAfter(kind, section));
      } else {
        var ending, rest := EndText(doc, InsertText(rs, |doc|));
        EndingFits(doc, i, ending);
        Associative(out, ending, rest);
        var more := TallyStep(doc, i, section, r, ending, rest, InsertText(rs, i), edited, removed, slots);
        LocateEnd(doc, SectionAfter(kind, section));
        InsertedTally(rest, SectionAfter(kind, section), edited, removed);
      }
    }
  }

  lemma LinesInserted(doc: ByteString, all: seq<Located>, rs: seq<Replacement>, edited: set<KeyPath>,
                      removed: set<KeyPath>, i: nat)
    requires LineWise(doc, all, rs, edited, removed) && i <= |doc| && LineStart(doc, i)
    ensures i < |doc| ==> KeyLines(InsertText(rs, i))
    ensures EndLines(doc, InsertText(rs, |doc|))
    ensures InsertLines(InsertText(rs, |doc|))
  {
    hide KeyLines, InsertText, StartingAt;
  }

  lemma EndingFits(doc: ByteString, i: nat, ending: ByteString)
    requires i < |doc|
    requires ending == [] || ending == [NEWLINE] || ending == [RETURN, NEWLINE]
    requires LineStart(doc, NextLine(doc, i)) ==> ending == []
    ensures Ending(doc, i, ending)
    ensures !LineStart(doc, NextLine(doc, i)) ==> NextLine(doc, i) == |doc|
    ensures LineStart(doc, NextLine(doc, i)) <==> doc[NextLine(doc, i) - 1] == NEWLINE
  {
    LineBytes(doc, i);
  }
}
