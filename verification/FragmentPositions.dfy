/** The spans of a fragment document are the byte offsets of parser positions, so what
    the editor gets from `offset` is what the patch works on. */
module FragmentPositions {
  import opened Bytes
  import opened Splice
  import opened Documents
  import opened Fragment
  import opened FragmentLines
  import opened FragmentFrame
  import opened FragmentTally
  import opened FragmentPlan
  import opened FragmentInsertion
  import opened FragmentReading
  import FragmentPatch
  import Positions
  import Utf8

  /** A code point may start at `i`, or the text ends there. */
  predicate AtBoundary(s: ByteString, i: nat) {
    i == |s| || (i < |s| && !Utf8.IsContinuation(s[i]))
  }

  /** Bytes that no code point continues over are boundaries. */
  lemma {:induction false} BoundaryFrom(cps: seq<Utf8.Scalar>, k: nat, i: nat) returns (m: nat)
    requires k <= |cps| && Positions.ByteOf(cps, k) <= i <= |Utf8.EncodeAll(cps)|
    requires AtBoundary(Utf8.EncodeAll(cps), i)
    ensures k <= m <= |cps| && Positions.ByteOf(cps, m) == i
    decreases |cps| - k
  {
    hide Utf8.EncodeAll, Positions.ByteOf;
    if Positions.ByteOf(cps, k) == i {
      m := k;
    } else if k == |cps| {
      WholeText(cps);
      assert false;
    } else {
      Positions.StepAt(cps, k);
      if Positions.ByteOf(cps, k + 1) <= i {
        m := BoundaryFrom(cps, k + 1, i);
      } else {
        assert false;
      }
    }
  }

  lemma WholeText(cps: seq<Utf8.Scalar>)
    ensures Positions.ByteOf(cps, |cps|) == |Utf8.EncodeAll(cps)| && Positions.ByteOf(cps, 0) == 0
  {
    assert cps[..|cps|] == cps && cps[..0] == [];
  }

  lemma ScalarStarts(s: ByteString)
    requires LexScalar(s).Some?
    ensures s != [] && s[0] < 0x80
  {}

  lemma TrailStarts(s: ByteString)
    requires IsTrail(s)
    ensures s == [] || s[0] < 0x80
  {}

  lemma AssignedStarts(t: ByteString)
    requires ClassifyAssign(t).Assign?
    ensures ClassifyAssign(t).begin < ClassifyAssign(t).end <= |t| && t[ClassifyAssign(t).begin] < 0x80
  {
    hide LexScalar, LexKey, IsTrail;
    var equal := LexKey(t).value.1 + CountSpace(t[LexKey(t).value.1..]);
    ScalarStarts(t[equal + 1 + CountSpace(t[equal + 1..])..]);
  }

  /** The bytes at both ends of a value's span start code points. */
  lemma ValueStarts(line: ByteString)
    requires Classify(line).Assign? && line != [] && OnlyLast(line)
    ensures var kind := Classify(line);
      && kind.begin < kind.end <= |line| && line[kind.begin] < 0x80 && (kind.end < |line| ==> line[kind.end] < 0x80)
      && (line[|line| - 1] == NEWLINE ==> kind.end < |line|)
  {
    hide Classify, ClassifyAssign, IsTrail;
    AssignContent(line);
    AssignTail(line);
    var s, end := Strip(line), Classify(line).end;
    AssignedStarts(s[CountSpace(s)..]);
    TrailStarts(s[end..]);
    StripRestIsEnding(line);
    if end < |s| {
      assert line[end] == s[end] == s[end..][0];
    }
  }

  lemma StripRestIsEnding(line: ByteString)
    ensures forall i :: |Strip(line)| <= i < |line| ==> line[i] == NEWLINE || line[i] == RETURN
    ensures forall i :: 0 <= i < |Strip(line)| ==> line[i] == Strip(line)[i]
    ensures line != [] && line[|line| - 1] == NEWLINE ==> |Strip(line)| < |line|
  {}

  lemma BindingStarts(doc: ByteString, all: seq<Located>, x: Located)
    requires Locate(doc, 0, []) == Some(all) && x in all
    ensures AtBoundary(doc, x.span.begin) && AtBoundary(doc, x.span.end) && x.span.begin < x.span.end <= |doc|
  {
    hide *;
    RootStart(doc);
    LocatedOnLine(doc, 0, [], x);
    OnLineBounds(doc, x);
    SectionOfLine(doc, 0, [], x);
    var line := doc[x.line..NextLine(doc, x.line)];
    LineAlone(doc, x.line);
    LineIsShort(doc, x.line);
    ValueStarts(line);
    AsciiBoundary(doc, x, Classify(line).begin, Classify(line).end);
  }

  lemma RootStart(doc: ByteString)
    ensures LineStart(doc, 0)
  {}

  lemma LineIsShort(doc: ByteString, i: nat)
    requires i < |doc|
    ensures OnlyLast(doc[i..NextLine(doc, i)])
  {
    hide NextLine;
    LineBytes(doc, i);
  }

  lemma AsciiBoundary(doc: ByteString, x: Located, begin: nat, end: nat)
    requires x.line < |doc| && x.line < NextLine(doc, x.line) <= |doc| && begin < end <= NextLine(doc, x.line) - x.line
    requires x.span == Span(x.line + begin, x.line + end)
    requires var line := doc[x.line..NextLine(doc, x.line)];
      line[begin] < 0x80 && (end < |line| ==> line[end] < 0x80) && (line[|line| - 1] == NEWLINE ==> end < |line|)
    ensures AtBoundary(doc, x.span.begin) && AtBoundary(doc, x.span.end)
  {
    hide NextLine;
    LineBytes(doc, x.line);
  }

  lemma {:induction false} SectionOfLine(doc: ByteString, i: nat, section: KeyPath, x: Located)
    requires i <= |doc| && (i == |doc| || LineStart(doc, i)) && Locate(doc, i, section).Some?
    requires x in Locate(doc, i, section).value
    ensures x.line < |doc|
    ensures var kind := Classify(doc[x.line..NextLine(doc, x.line)]);
      kind.Assign? && x.span == Span(x.line + kind.begin, x.line + kind.end)
    decreases |doc| - i
  {
    hide *;
    LocatedOnLine(doc, i, section, x);
    if x.line == i {
      HeadOfLine(doc, i, section, x);
    } else {
      InRest(doc, i, section, x);
      NextLineStarts(doc, i);
      NextLineInside(doc, i);
      SectionOfLine(doc, NextLine(doc, i), SectionAfter(Classify(doc[i..NextLine(doc, i)]), section), x);
    }
  }

  /** In a UTF-8 document, the source span of every entry is what `offset` makes of the
      positions the parser reports for its two ends. */
  lemma SpansAreOffsets(current: Snapshot, cps: seq<Utf8.Scalar>, key: KeyPath) returns (from: nat, to: nat)
    requires Parse(current.revision.bytes) == Some(current.overrides) && Utf8.Encodes(current.revision.bytes, cps)
    requires key in current.overrides
    ensures from < to <= |cps|
    ensures current.overrides[key].source
         == Span(Positions.OffsetOf(current.revision.bytes, Positions.PositionOf(cps, from)),
                 Positions.OffsetOf(current.revision.bytes, Positions.PositionOf(cps, to)))
  {
    hide Locate, Utf8.EncodeAll, Positions.OffsetOf, Positions.PositionOf, Positions.ByteOf, Parse, AtBoundary,
      BindingsOfDocument;
    var doc := current.revision.bytes;
    var all := FragmentPatch.ParsedBindings(current);
    LocatedAtStart(current, all);
    var x := BindingOfEntry(current, all, key);
    BindingStarts(doc, all, x);
    WholeText(cps);
    from := BoundaryFrom(cps, 0, x.span.begin);
    to := BoundaryFrom(cps, 0, x.span.end);
    if to <= from {
      Positions.BytesGrow(cps, to, from);
    }
    Positions.OffsetInvertsPosition(cps, from);
    Positions.OffsetInvertsPosition(cps, to);
  }
}
