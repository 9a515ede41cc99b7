/** The frame of a successful patch in the concrete fragment: the result binds
    exactly the old bindings overlaid with the batch.

    The proof counts. Bindings of unedited keys survive, every requested value is
    there because success checks it, and the lines the patch leaves cannot bind
    more than that; so nothing else is bound, wherever an insertion landed. */
module FragmentFrame {
  import opened Bytes
  import opened Splice
  import opened Documents
  import opened Fragment
  import opened FragmentLines
  import Scanner

  // ---------------------------------------------------------------------------
  // Replacements line by line

  /** The value of binding `x` is replaced in its line. */
  predicate Sets(x: Located, r: Replacement) {
    r.span == x.span && r.text != [] && NEWLINE !in r.text
  }

  /** The line of binding `x` is removed up to the end of its value. */
  predicate Removes(x: Located, r: Replacement) {
    r.span == Span(x.line, x.span.end) && r.text == []
  }

  /** The binding's value lies on its line. */
  predicate OnLine(doc: ByteString, x: Located) {
    && x.line <= |doc| && LineStart(doc, x.line)
    && x.line < x.span.begin < x.span.end <= NextLine(doc, x.line)
  }

  /** Each replacement sets or removes a binding, and each insertion is lines at a
      line start, or at the end of the file after a line ending. */
  ghost predicate LineWise(doc: ByteString, all: seq<Located>, rs: seq<Replacement>, edited: set<KeyPath>, removed: set<KeyPath>) {
    && removed <= edited
    && (forall r :: r in rs && !IsInsertion(r) ==>
         exists x :: x in all && x.key in edited && if x.key in removed then Removes(x, r) else Sets(x, r))
    && (forall x :: x in all && x.key in removed ==> StartingAt(rs, x.line).Some?)
    && (forall p: nat :: p < |doc| && !LineStart(doc, p) ==> InsertText(rs, p) == [])
    && (forall p: nat :: p < |doc| && LineStart(doc, p) ==> KeyLines(InsertText(rs, p)))
    && EndLines(doc, InsertText(rs, |doc|))
  }

  /** Text inserted at the end of the file. */
  predicate EndLines(doc: ByteString, text: ByteString) {
    && InsertLines(text)
    && (LineStart(doc, |doc|) || text == [] || [NEWLINE] <= text || [RETURN, NEWLINE] <= text)
  }

  /** The bindings after line `i`, and the section they start under. */
  function SectionAfter(kind: LineKind, section: KeyPath): KeyPath {
    if kind.Header? then kind.path else section
  }

  lemma LocateStep(doc: ByteString, i: nat, section: KeyPath)
    requires i < |doc| && Locate(doc, i, section).Some?
    ensures var next, kind := NextLine(doc, i), Classify(doc[i..NextLine(doc, i)]);
      && kind != Bad
      && Locate(doc, next, SectionAfter(kind, section)).Some?
      && var rest := Locate(doc, next, SectionAfter(kind, section)).value;
         Locate(doc, i, section).value
         == if kind.Assign?
            then [Located(section + [kind.key], kind.value, i, Span(i + kind.begin, i + kind.end))] + rest
            else rest
  {}

  lemma NextLineStarts(doc: ByteString, i: nat)
    requires i < |doc|
    ensures NextLine(doc, i) == |doc| || LineStart(doc, NextLine(doc, i))
  {}

  lemma AssignOnLine(doc: ByteString, i: nat, section: KeyPath)
    requires i < |doc| && LineStart(doc, i) && Classify(doc[i..NextLine(doc, i)]).Assign?
    ensures var kind := Classify(doc[i..NextLine(doc, i)]);
      OnLine(doc, Located(section + [kind.key], kind.value, i, Span(i + kind.begin, i + kind.end)))
  {}

  lemma {:induction false} LocatedOnLine(doc: ByteString, i: nat, section: KeyPath, x: Located)
    requires i <= |doc| && (i == |doc| || LineStart(doc, i)) && Locate(doc, i, section).Some?
    requires x in Locate(doc, i, section).value
    ensures OnLine(doc, x) && x.line < |doc| && i < |doc| && (x.line == i || NextLine(doc, i) <= x.line)
    decreases |doc| - i
  {
    LocateStep(doc, i, section);
    var next, kind := NextLine(doc, i), Classify(doc[i..NextLine(doc, i)]);
    var rest := Locate(doc, next, SectionAfter(kind, section)).value;
    if x in rest {
      NextLineStarts(doc, i);
      LocatedOnLine(doc, next, SectionAfter(kind, section), x);
    } else {
      assert kind.Assign?;
      AssignOnLine(doc, i, section);
    }
  }

  /** Only the binding of line `i` is edited between `i` and the next line. */
  lemma ReplacementOnLine(doc: ByteString, all: seq<Located>, rs: seq<Replacement>, edited: set<KeyPath>,
                          removed: set<KeyPath>, i: nat, r: Replacement)
    returns (x: Located)
    requires LineWise(doc, all, rs, edited, removed) && i < |doc| && LineStart(doc, i)
    requires forall x :: x in all ==> OnLine(doc, x) && x.line < |doc|
    requires r in rs && !IsInsertion(r) && i <= r.span.begin < NextLine(doc, i)
    ensures x in all && x.line == i && x.key in edited
    ensures if x.key in removed then Removes(x, r) else Sets(x, r)
  {
    x :| x in all && x.key in edited && if x.key in removed then Removes(x, r) else Sets(x, r);
    if i < x.line {
      LinesDoNotOverlap(doc, i, x.line);
    } else if x.line < i {
      LinesDoNotOverlap(doc, x.line, i);
    }
  }

  lemma LinesDoNotOverlap(doc: ByteString, i: nat, j: nat)
    requires i < j < |doc| && LineStart(doc, j)
    ensures NextLine(doc, i) <= j
  {
    var newline := Bytes.Find(doc, NEWLINE, i);
    assert newline <= j - 1;
  }

  // ---------------------------------------------------------------------------
  // The new text of one line

  /** Line `i` after replacement `r`, if any, inside it. */
  function LineOut(doc: ByteString, i: nat, r: Option<Replacement>): ByteString
    requires i < |doc|
    requires r.Some? ==> i <= r.value.span.begin < r.value.span.end <= NextLine(doc, i)
  {
    var n := NextLine(doc, i);
    match r
    case None => doc[i..n]
    case Some(r) => doc[i..r.span.begin] + r.text + doc[r.span.end..n]
  }

  /** No replacement starts from `i` up to `j`. */
  ghost predicate Untouched(rs: seq<Replacement>, i: nat, j: nat) {
    forall p: nat :: i <= p < j ==> InsertText(rs, p) == [] && StartingAt(rs, p).None?
  }

  lemma {:induction false} UntouchedIsCopied(doc: ByteString, rs: seq<Replacement>, i: nat, j: nat)
    requires i <= j <= |doc| && Untouched(rs, i, j)
    ensures Substituted(doc, rs, i) == doc[i..j] + Substituted(doc, rs, j)
    decreases j - i
  {
    if i < j {
      hide InsertText, StartingAt, Substituted, Onward;
      UntouchedIsCopied(doc, rs, i + 1, j);
      assert InsertText(rs, i) == [] && StartingAt(rs, i).None?;
      SubstitutedStep(doc, rs, i);
      OnwardCopies(doc, rs, i);
      assert [] + Onward(doc, rs, i) == Onward(doc, rs, i);
      Associative([doc[i]], doc[i + 1..j], Substituted(doc, rs, j));
      assert doc[i..j] == [doc[i]] + doc[i + 1..j];
    }
  }

  /** `r` is the only replacement inside line `i`. */
  ghost predicate OnlyReplacement(doc: ByteString, rs: seq<Replacement>, i: nat, r: Option<Replacement>)
    requires i < |doc|
  {
    && (r.Some? ==> i <= r.value.span.begin < r.value.span.end <= NextLine(doc, i))
    && (forall p: nat :: i < p < NextLine(doc, i) ==> InsertText(rs, p) == [])
    && forall p: nat :: i <= p < NextLine(doc, i) ==>
         StartingAt(rs, p) == if r.Some? && r.value.span.begin == p then r else None
  }

  lemma OnwardReplaces(doc: ByteString, rs: seq<Replacement>, i: nat, r: Replacement)
    requires i <= |doc| && StartingAt(rs, i) == Some(r) && r.span.end <= |doc|
    ensures Onward(doc, rs, i) == r.text + Substituted(doc, rs, r.span.end)
  {}

  lemma OnwardCopies(doc: ByteString, rs: seq<Replacement>, i: nat)
    requires i < |doc| && StartingAt(rs, i).None?
    ensures Onward(doc, rs, i) == [doc[i]] + Substituted(doc, rs, i + 1)
  {}

  /** Past its insertions, a line start that no replacement starts at is copied on. */
  lemma OnwardUpTo(doc: ByteString, rs: seq<Replacement>, i: nat, j: nat)
    requires i < j <= |doc| && StartingAt(rs, i).None? && Untouched(rs, i + 1, j)
    ensures Onward(doc, rs, i) == doc[i..j] + Substituted(doc, rs, j)
  {
    hide *;
    OnwardCopies(doc, rs, i);
    UntouchedIsCopied(doc, rs, i + 1, j);
    Associative([doc[i]], doc[i + 1..j], Substituted(doc, rs, j));
    assert doc[i..j] == [doc[i]] + doc[i + 1..j];
  }

  lemma ReplacementWithin(doc: ByteString, rs: seq<Replacement>, i: nat, r: Replacement)
    requires i < |doc| && OnlyReplacement(doc, rs, i, Some(r))
    ensures i <= r.span.begin < r.span.end <= NextLine(doc, i)
    ensures StartingAt(rs, r.span.begin) == Some(r)
    ensures i < r.span.begin ==>
      StartingAt(rs, i).None? && Untouched(rs, i + 1, r.span.begin) && InsertText(rs, r.span.begin) == []
    ensures Untouched(rs, r.span.end, NextLine(doc, i))
  {
    hide InsertText, StartingAt, NextLine;
  }

  lemma OnwardOverReplacement(doc: ByteString, rs: seq<Replacement>, i: nat, r: Replacement)
    requires i < |doc| && OnlyReplacement(doc, rs, i, Some(r))
    ensures i <= r.span.begin < r.span.end <= NextLine(doc, i)
    ensures Onward(doc, rs, i) == (doc[i..r.span.begin] + r.text) + Substituted(doc, rs, r.span.end)
  {
    hide *;
    ReplacementWithin(doc, rs, i, r);
    var b := r.span.begin;
    OnwardReplaces(doc, rs, b, r);
    if b == i {
      assert doc[i..b] + r.text == r.text;
    } else {
      OnwardUpTo(doc, rs, i, b);
      SubstitutedStep(doc, rs, b);
      assert [] + Onward(doc, rs, b) == Onward(doc, rs, b);
      Associative(doc[i..b], r.text, Substituted(doc, rs, r.span.end));
    }
  }

  lemma SubstitutedLine(doc: ByteString, rs: seq<Replacement>, i: nat, r: Option<Replacement>)
    requires i < |doc| && OnlyReplacement(doc, rs, i, r)
    ensures Substituted(doc, rs, i)
         == InsertText(rs, i) + (LineOut(doc, i, r) + Substituted(doc, rs, NextLine(doc, i)))
  {
    hide Substituted, InsertText, StartingAt, Onward, NextLine;
    var n := NextLine(doc, i);
    SubstitutedStep(doc, rs, i);
    if r.None? {
      OnwardUpTo(doc, rs, i, n);
    } else {
      OnwardOverReplacement(doc, rs, i, r.value);
      ReplacementWithin(doc, rs, i, r.value);
      UntouchedIsCopied(doc, rs, r.value.span.end, n);
      Associative(doc[i..r.value.span.begin] + r.value.text, doc[r.value.span.end..n], Substituted(doc, rs, n));
    }
  }

  /** Replacement `r` sets or removes the binding of line `i`, or is none. */
  predicate EditsLine(i: nat, kind: LineKind, r: Option<Replacement>) {
    r.None? ||
    (&& kind.Assign?
     && ((r.value.span == Span(i + kind.begin, i + kind.end) && r.value.text != [] && NEWLINE !in r.value.text)
         || (r.value.span == Span(i, i + kind.end) && r.value.text == [])))
  }

  /** A line ending that text inserted at the end of the file brings along for an
      unterminated last line. */
  predicate Ending(doc: ByteString, i: nat, ending: ByteString)
    requires i < |doc|
  {
    ending == [] ||
    (&& (ending == [NEWLINE] || ending == [RETURN, NEWLINE])
     && NextLine(doc, i) == |doc| && doc[|doc| - 1] != NEWLINE)
  }

  lemma LineBytes(doc: ByteString, i: nat)
    requires i < |doc|
    ensures var n := NextLine(doc, i);
      forall k :: i <= k < n - 1 ==> doc[k] != NEWLINE
    ensures var n := NextLine(doc, i);
      n < |doc| ==> doc[n - 1] == NEWLINE
    ensures var n := NextLine(doc, i); var line := doc[i..n];
      (NEWLINE in line ==> doc[n - 1] == NEWLINE) && line[|line| - 1] == doc[n - 1]
  {}

  lemma EditFits(doc: ByteString, i: nat, r: Option<Replacement>)
    requires i < |doc| && EditsLine(i, Classify(doc[i..NextLine(doc, i)]), r)
    ensures r.Some? ==> i <= r.value.span.begin < r.value.span.end <= NextLine(doc, i)
    ensures r.Some? && doc[NextLine(doc, i) - 1] == NEWLINE ==> r.value.span.end < NextLine(doc, i)
  {
    hide Classify;
    LineBytes(doc, i);
  }

  /** An edited line still ends where it did. */
  lemma LineOutIsLine(doc: ByteString, i: nat, r: Option<Replacement>, ending: ByteString)
    requires i < |doc| && EditsLine(i, Classify(doc[i..NextLine(doc, i)]), r) && Ending(doc, i, ending)
    ensures r.Some? ==> i <= r.value.span.begin < r.value.span.end <= NextLine(doc, i)
    ensures var line := LineOut(doc, i, r) + ending;
      IsLine(line) || (doc[NextLine(doc, i) - 1] != NEWLINE && ending == []
                       && (line == [] || NextLine(line, 0) == |line|))
  {
    hide Classify;
    EditFits(doc, i, r);
    LineBytes(doc, i);
    var n := NextLine(doc, i);
    var line := LineOut(doc, i, r) + ending;
    NoInnerNewline(doc, i, r);
    if doc[n - 1] == NEWLINE {
      LineOutLast(doc, i, r);
      assert line == LineOut(doc, i, r);
      OneLine(line);
    } else if ending != [] {
      OneLine(line);
    } else if line != [] {
      assert line[|line| - 1] != NEWLINE by {
        LineOutLast(doc, i, r);
      }
      var newline := Bytes.Find(line, NEWLINE, 0);
      assert newline == |line|;
    }
  }

  /** A newline can only be the last byte. */
  predicate OnlyLast(s: ByteString) {
    forall k :: 0 <= k < |s| - 1 ==> s[k] != NEWLINE
  }

  lemma OnlyLastOfParts(front: ByteString, text: ByteString, back: ByteString)
    requires NEWLINE !in front && NEWLINE !in text && OnlyLast(back)
    ensures OnlyLast(front + text + back)
    ensures NEWLINE !in back ==> NEWLINE !in front + text + back
  {}

  lemma NoInnerNewline(doc: ByteString, i: nat, r: Option<Replacement>)
    requires i < |doc| && EditsLine(i, Classify(doc[i..NextLine(doc, i)]), r)
    ensures r.Some? ==> i <= r.value.span.begin < r.value.span.end <= NextLine(doc, i)
    ensures OnlyLast(LineOut(doc, i, r))
    ensures doc[NextLine(doc, i) - 1] != NEWLINE ==> NEWLINE !in LineOut(doc, i, r)
  {
    hide Classify, NextLine;
    EditFits(doc, i, r);
    LineBytes(doc, i);
    if r.Some? {
      OnlyLastOfParts(doc[i..r.value.span.begin], r.value.text, doc[r.value.span.end..NextLine(doc, i)]);
    }
  }

  lemma LineOutLast(doc: ByteString, i: nat, r: Option<Replacement>)
    requires i < |doc| && EditsLine(i, Classify(doc[i..NextLine(doc, i)]), r)
    ensures r.Some? ==> i <= r.value.span.begin < r.value.span.end <= NextLine(doc, i)
    ensures doc[NextLine(doc, i) - 1] == NEWLINE ==>
      LineOut(doc, i, r) != [] && LineOut(doc, i, r)[|LineOut(doc, i, r)| - 1] == NEWLINE
    ensures doc[NextLine(doc, i) - 1] != NEWLINE ==> NEWLINE !in LineOut(doc, i, r)
  {
    hide Classify, NextLine;
    EditFits(doc, i, r);
    NoInnerNewline(doc, i, r);
  }

  /** What an edited line is: the same as before, no header, or blank. */
  lemma LineOutKind(doc: ByteString, i: nat, r: Option<Replacement>, ending: ByteString)
    requires i < |doc| && EditsLine(i, Classify(doc[i..NextLine(doc, i)]), r) && Ending(doc, i, ending)
    requires Classify(doc[i..NextLine(doc, i)]) != Bad
    ensures r.Some? ==> i <= r.value.span.begin < r.value.span.end <= NextLine(doc, i)
    ensures var kind := Classify(LineOut(doc, i, r) + ending);
      && (r.None? ==> kind == Classify(doc[i..NextLine(doc, i)]))
      && (r.Some? ==> !kind.Header?)
      && (r.Some? && r.value.text == [] ==> kind == Blank)
  {
    hide Classify;
    EditFits(doc, i, r);
    LineBytes(doc, i);
    var n := NextLine(doc, i);
    var line := doc[i..n];
    if r.None? {
      if ending == [] {
        assert line + ending == line;
      } else {
        TerminatedLineIsSame(line, ending);
      }
    } else if r.value.text != [] {
      SetValueLine(line, r.value.text, ending);
      var kind := Classify(line);
      assert line[..kind.begin] == doc[i..r.value.span.begin];
      assert line[kind.end..] == doc[r.value.span.end..n];
    } else {
      RemovedLineIsBlank(line, ending);
      var kind := Classify(line);
      assert doc[i..i] + [] + doc[i + kind.end..n] == line[kind.end..];
    }
  }

  /** The bindings from an edited line on. */
  lemma BindingsOfEditedLine(doc: ByteString, i: nat, r: Option<Replacement>, ending: ByteString, rest: ByteString,
                             section: KeyPath)
    requires i < |doc| && EditsLine(i, Classify(doc[i..NextLine(doc, i)]), r) && Ending(doc, i, ending)
    requires Classify(doc[i..NextLine(doc, i)]) != Bad
    requires doc[NextLine(doc, i) - 1] != NEWLINE && ending == [] ==> rest == []
    ensures r.Some? ==> i <= r.value.span.begin < r.value.span.end <= NextLine(doc, i)
    ensures Bindings((LineOut(doc, i, r) + ending) + rest, section)
         == LineThen(Classify(LineOut(doc, i, r) + ending), rest, section)
  {
    hide *;
    LineOutIsLine(doc, i, r, ending);
    var line := LineOut(doc, i, r) + ending;
    if line == [] {
      EmptyLineIsBlank();
      assert line + rest == rest;
      BlankThen(rest, section);
    } else {
      BindingsOfLine(line, rest, section);
    }
  }

  lemma EmptyLineIsBlank()
    ensures Classify([]) == Blank
  {}

  lemma BlankThen(rest: ByteString, section: KeyPath)
    ensures LineThen(Blank, rest, section) == Bindings(rest, section)
  {}
}
