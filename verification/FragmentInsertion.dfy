/** Where new keys go in a fragment document: probing a line with a key behind it
    recognises exactly the header of the parent table. */
module FragmentInsertion {
  import opened Bytes
  import opened Splice
  import opened Documents
  import opened Patch
  import opened Fragment
  import opened FragmentLines
  import opened FragmentFrame
  import opened FragmentPlan
  import opened FragmentLiterals
  import FragmentPatch
  import Quoting
  import Scanner

  // ---------------------------------------------------------------------------
  // The first byte of a line

  lemma {:induction false} SkipsSpace(line: ByteString, w: nat)
    requires w <= |line| && forall i :: 0 <= i < w ==> IsBlank(line[i])
    requires w < |line| ==> !IsBlank(line[w])
    ensures SkipBlanks(line) == line[w..]
  {
    if w > 0 {
      SkipsSpace(line[1..], w - 1);
    } else {
      assert line[0..] == line;
    }
  }

  lemma ContentStart(line: ByteString)
    requires CountSpace(Strip(line)) < |Strip(line)| && Strip(line)[CountSpace(Strip(line))] != RETURN
    requires Strip(line)[CountSpace(Strip(line))] != NEWLINE
    ensures SkipBlanks(line) != [] && SkipBlanks(line)[0] == Strip(line)[CountSpace(Strip(line))]
    ensures SkipBlanks(line) == line[CountSpace(Strip(line))..]
  {
    hide Strip;
    var s, w := Strip(line), CountSpace(Strip(line));
    StripIsPrefix(line);
    assert forall i :: 0 <= i < w ==> line[i] == s[i];
    SkipsSpace(line, w);
  }

  lemma StripIsPrefix(line: ByteString)
    ensures Strip(line) <= line
  {}

  lemma EmptyContent(line: ByteString)
    requires CountSpace(Strip(line)) == |Strip(line)|
    ensures SkipBlanks(line) == []
  {
    SkipsSpace(line, |line|);
  }

  /** Only a header line starts with a bracket. */
  lemma NoHeaderNoBracket(line: ByteString)
    requires NextLine(line, 0) == |line| && Classify(line) != Bad && !Classify(line).Header?
    ensures SkipBlanks(line) == [] || SkipBlanks(line)[0] != OPEN_BRACKET
  {
    hide ClassifyAssign, ClassifyHeader;
    var s, w := Strip(line), CountSpace(Strip(line));
    var t := s[w..];
    if t == [] {
      EmptyContent(line);
    } else {
      assert t[0] == s[w];
      if IsTrail(t) {
        CountSpaceUnique(t, 0);
        assert t[0..] == t;
      }
      NoNewlineInContent(line, w);
      ContentStart(line);
    }
  }

  lemma NoNewlineInContent(line: ByteString, w: nat)
    requires NextLine(line, 0) == |line| && w < |Strip(line)| && RETURN !in Strip(line)
    ensures Strip(line)[w] != NEWLINE && Strip(line)[w] != RETURN
  {
    var newline := Bytes.Find(line, NEWLINE, 0);
    assert Strip(line)[w] == line[w];
  }

  /** A header line starts with one bracket. */
  lemma HeaderBracket(line: ByteString)
    requires NextLine(line, 0) == |line| && Classify(line).Header?
    ensures SkipBlanks(line) != [] && SkipBlanks(line)[0] == OPEN_BRACKET
    ensures !([OPEN_BRACKET, OPEN_BRACKET] <= SkipBlanks(line))
  {
    hide ClassifyAssign, LexHeader, IsTrail;
    var s, w := Strip(line), CountSpace(Strip(line));
    var t := s[w..];
    assert t[0] == s[w] == OPEN_BRACKET;
    ContentStart(line);
    NoSecondBracket(t[1..]);
    if [OPEN_BRACKET, OPEN_BRACKET] <= SkipBlanks(line) {
      SecondByte(line, s, w);
    }
  }

  lemma NoSecondBracket(s: ByteString)
    requires LexHeader(s).Some?
    ensures s != [] && s[0] != OPEN_BRACKET
  {
    assert s[0..] == s;
  }

  /** The byte after the bracket is content too. */
  lemma SecondByte(line: ByteString, s: ByteString, w: nat)
    requires s <= line && w < |s| && line[w..][0] == OPEN_BRACKET && s == Strip(line)
    requires [OPEN_BRACKET, OPEN_BRACKET] <= line[w..] && s[w..][1..] != []
    ensures s[w..][1..][0] == OPEN_BRACKET
  {
    assert line[w..][1] == OPEN_BRACKET;
    assert s[w..][1..][0] == s[w + 1] == line[w + 1];
  }

  // ---------------------------------------------------------------------------
  // Printed assignments

  lemma PrintedKeyReadsBack(key: Key, after: ByteString)
    ensures LexKey(PrintText(key) + after) == Some((key, |PrintText(key)|))
  {
    hide EscapeBytes, Quoting.DecodeBody;
    EscapedBytesDecode(key, after);
    assert (PrintText(key) + after)[1..] == EscapeBytes(key) + ([QUOTE] + after);
  }

  lemma PrintedAssignTail(key: Key, value: Value)
    requires Literal(value)
    ensures var n := |PrintText(key)|;
      ClassifyAssign(PrintText(key) + ASSIGN + Print(value)) == Assign(key, value, n + 3, n + 3 + |Print(value)|)
  {
    hide LexKey, LexScalar, Print, PrintText, Literal;
    var lexeme, n := Print(value), |PrintText(key)|;
    var t := PrintText(key) + ASSIGN + lexeme;
    ScalarReadsBack(value);
    PrintedKeyReadsBack(key, ASSIGN + lexeme);
    assert t == PrintText(key) + (ASSIGN + lexeme);
    assert t[n] == SPACE && t[n + 1] == EQUALS && t[n + 2] == SPACE && t[n + 3] == lexeme[0];
    CountSpaceUnique(t[n..], 1);
    CountSpaceUnique(t[n + 2..], 1);
    assert t[n + 3..] == lexeme;
    assert t[n + 3 + |lexeme|..] == [];
    EmptyTrail();
  }

  /** A printed assignment reads back as its key and value. */
  lemma PrintedAssign(key: Key, value: Value)
    requires Literal(value)
    ensures var n := |PrintText(key)|;
      Classify(PrintText(key) + ASSIGN + Print(value) + [NEWLINE]) == Assign(key, value, n + 3, n + 3 + |Print(value)|)
    ensures IsLine(PrintText(key) + ASSIGN + Print(value) + [NEWLINE])
  {
    hide ClassifyAssign, ClassifyHeader, Print, PrintText, IsTrail;
    var t := PrintText(key) + ASSIGN + Print(value);
    PrintedAssignTail(key, value);
    PrintedKey(key);
    PrintIsInline(value);
    PrintHasNoReturn(value);
    PrintHasNoReturn(Text(key));
    PrintedText(key);
    StartsWithQuote(key);
    assert NEWLINE !in t && RETURN !in t && t[0] == QUOTE;
    StripTerminated(t, [NEWLINE]);
    CountSpaceUnique(t, 0);
    assert t[0..] == t;
    NoTrail(t);
    OneLine(t + [NEWLINE]);
  }

  lemma PrintedText(key: Key)
    ensures Print(Text(key)) == PrintText(key)
  {}

  lemma NoTrail(t: ByteString)
    requires t != [] && t[0] == QUOTE
    ensures !IsTrail(t)
  {
    CountSpaceUnique(t, 0);
    assert t[0..] == t;
  }

  // ---------------------------------------------------------------------------
  // The probe

  const PROBE_KEY: Key := [95, 95, 104, 110, 95, 112, 114, 111, 98, 101]

  const PROBE_LINE: ByteString := [QUOTE] + PROBE_KEY + [QUOTE] + ASSIGN + [48] + [NEWLINE]

  lemma ProbeParts()
    ensures PROBE_SUFFIX == [NEWLINE] + PROBE_LINE
  {}

  lemma {:induction false} PlainBytes(s: ByteString)
    requires forall i :: 0 <= i < |s| ==> 95 <= s[i] <= 122
    ensures EscapeBytes(s) == s
  {
    if s != [] {
      PlainBytes(s[1..]);
    }
  }

  lemma ProbeKeyText()
    ensures PrintText(PROBE_KEY) == [QUOTE] + PROBE_KEY + [QUOTE]
  {
    hide EscapeBytes;
    PlainBytes(PROBE_KEY);
  }

  lemma ZeroText()
    ensures Print(Integer(0)) == [48]
  {}

  lemma ProbeLine()
    ensures IsLine(PROBE_LINE) && Classify(PROBE_LINE).Assign?
    ensures Classify(PROBE_LINE).key == PROBE_KEY && Classify(PROBE_LINE).value == Integer(0)
  {
    hide *;
    ProbeKeyText();
    ZeroText();
    SmallLiteral(0);
    PrintedAssign(PROBE_KEY, Integer(0));
    ProbeShape();
  }

  lemma ProbeShape()
    ensures PROBE_LINE == PrintText(PROBE_KEY) + ASSIGN + Print(Integer(0)) + [NEWLINE]
  {
    hide PrintText, Print;
    ProbeKeyText();
    ZeroText();
  }

  lemma SmallLiteral(n: nat)
    requires n < 100
    ensures Literal(Integer(n))
  {}

  lemma HeadersStep(bytes: ByteString, i: nat)
    requires i < |bytes|
    ensures HeadersFrom(bytes, i) == HeaderOf(Classify(bytes[i..NextLine(bytes, i)])) + HeadersFrom(bytes, NextLine(bytes, i))
  {
    hide Classify, NextLine;
    var rest := HeadersFrom(bytes, NextLine(bytes, i));
    assert [] + rest == rest;
  }

  lemma {:induction false} HeadersOfSuffix(bytes: ByteString, i: nat)
    requires i <= |bytes|
    ensures HeadersFrom(bytes, i) == HeadersFrom(bytes[i..], 0)
    decreases |bytes|, |bytes| - i
  {
    hide *;
    var rest := bytes[i..];
    if i == 0 {
      assert rest == bytes;
    } else if i < |bytes| {
      var next := NextLine(bytes, i);
      NextLineInside(bytes, i);
      Scanner.NextLineOfSuffix(bytes, i);
      HeadersStep(bytes, i);
      HeadersStep(rest, 0);
      assert rest[0..next - i] == bytes[i..next];
      HeadersOfSuffix(bytes, next);
      HeadersOfSuffix(rest, next - i);
      DropAgain(bytes, i, next - i);
    } else {
      NoHeaders(bytes);
      NoHeaders(rest);
    }
  }

  lemma NextLineInside(bytes: ByteString, i: nat)
    requires i < |bytes|
    ensures i < NextLine(bytes, i) <= |bytes|
  {}

  lemma NoHeaders(bytes: ByteString)
    ensures HeadersFrom(bytes, |bytes|) == []
  {}

  function HeaderOf(kind: LineKind): seq<KeyPath> {
    if kind.Header? then [kind.path] else []
  }

  lemma HeadersOfLine(line: ByteString, rest: ByteString)
    requires IsLine(line)
    ensures HeadersFrom(line + rest, 0) == HeaderOf(Classify(line)) + HeadersFrom(rest, 0)
  {
    hide Classify;
    var all := line + rest;
    Scanner.NextLineOfPrefix(line, rest);
    assert all[0..|line|] == line && all[|line|..] == rest;
    HeadersOfSuffix(all, |line|);
    assert [] + HeadersFrom(rest, 0) == HeadersFrom(rest, 0);
  }

  lemma NewlineIsBlank()
    ensures IsLine([NEWLINE]) && Classify([NEWLINE]) == Blank
  {
    OneLine([NEWLINE]);
  }

  /** A header line, the probe behind it: one binding in the header's table. */
  lemma ProbedHeader(line: ByteString, path: KeyPath)
    requires line != [] && NextLine(line, 0) == |line| && Classify(line) == Header(path)
    ensures Bindings(line + PROBE_SUFFIX, []) == Some([(path + [PROBE_KEY], Integer(0))])
    ensures HeadersFrom(line + PROBE_SUFFIX, 0) == [path]
  {
    hide *;
    ProbeLine();
    NewlineIsBlank();
    ProbeBindings(path);
    ProbeParts();
    if IsLine(line) {
      BindingsOfLine(line, PROBE_SUFFIX, []);
      BindingsOfLine([NEWLINE], PROBE_LINE, path);
      HeadersOfLine(line, PROBE_SUFFIX);
      HeadersOfLine([NEWLINE], PROBE_LINE);
      LineThenHeader(path, PROBE_SUFFIX, []);
      BlankLineThen(PROBE_LINE, path);
      HeaderOfKinds(path);
    } else {
      Unterminated(line);
      TerminatedLineIsSame(line, [NEWLINE]);
      Associative(line, [NEWLINE], PROBE_LINE);
      BindingsOfLine(line + [NEWLINE], PROBE_LINE, []);
      HeadersOfLine(line + [NEWLINE], PROBE_LINE);
      LineThenHeader(path, PROBE_LINE, []);
      HeaderOfKinds(path);
    }
  }

  lemma HeaderOfKinds(path: KeyPath)
    ensures HeaderOf(Header(path)) == [path] && HeaderOf(Blank) == []
  {}

  lemma LineThenHeader(path: KeyPath, rest: ByteString, section: KeyPath)
    ensures LineThen(Header(path), rest, section) == Bindings(rest, path)
  {}

  lemma BlankLineThen(rest: ByteString, section: KeyPath)
    ensures LineThen(Blank, rest, section) == Bindings(rest, section)
  {}

  lemma Unterminated(line: ByteString)
    requires line != [] && NextLine(line, 0) == |line| && !IsLine(line)
    ensures NEWLINE !in line && IsLine(line + [NEWLINE])
  {
    var newline := Bytes.Find(line, NEWLINE, 0);
    assert newline == |line|;
    OneLine(line + [NEWLINE]);
  }

  lemma ProbeBindings(path: KeyPath)
    ensures Bindings(PROBE_LINE, path) == Some([(path + [PROBE_KEY], Integer(0))])
    ensures HeadersFrom(PROBE_LINE, 0) == []
  {
    hide *;
    ProbeLine();
    assert PROBE_LINE + [] == PROBE_LINE;
    BindingsOfLine(PROBE_LINE, [], path);
    HeadersOfLine(PROBE_LINE, []);
    OneBinding(Classify(PROBE_LINE), path);
    NoHeaders([]);
  }

  lemma OneBinding(kind: LineKind, section: KeyPath)
    requires kind.Assign?
    ensures LineThen(kind, [], section) == Some([(section + [kind.key], kind.value)]) && HeaderOf(kind) == []
  {
    assert Bindings([], section) == Some([]);
    var pair := (section + [kind.key], kind.value);
    assert [pair] + [] == [pair];
  }

  // ---------------------------------------------------------------------------
  // Headers recognised

  lemma OnePair(located: seq<Located>, pair: Binding)
    requires Pairs(located) == [pair]
    ensures |located| == 1 && Pair(located[0]) == pair
  {
    FragmentPatch.PairsSize(located);
  }

  /** A document with one binding. */
  lemma ParsesToOne(bytes: ByteString, key: KeyPath, value: Value)
    requires Bindings(bytes, []) == Some([(key, value)]) && TablesAgree([key], HeadersFrom(bytes, 0))
    ensures Parse(bytes).Some? && Parse(bytes).value.Keys == {key} && Parse(bytes).value[key].value == value
  {
    hide Bindings, Locate, HeadersFrom, TablesAgree;
    LocateGivesBindings(bytes, 0, []);
    assert bytes[0..] == bytes;
    var located := Locate(bytes, 0, []).value;
    OnePair(located, (key, value));
    assert KeysOf(located)[0] == key;
    assert KeysOf(located) == [key];
  }

  lemma LongerIsNoPrefix(path: KeyPath, key: Key)
    ensures !(path + [key] <= path) && (path + [key])[..|path + [key]| - 1] == path
  {}

  lemma ProbeMatches(overrides: map<KeyPath, Entry>, path: KeyPath, parent: KeyPath)
    requires overrides.Keys == {path + [PROBE_KEY]}
    ensures |overrides| == 1
    ensures (exists p :: p in overrides.Keys && p != [] && p[..|p| - 1] == parent) <==> path == parent
  {
    LongerIsNoPrefix(path, PROBE_KEY);
    assert |overrides.Keys| == 1;
    assert path + [PROBE_KEY] in overrides.Keys;
  }

  /** Probing a good line with a key behind it finds exactly the header of the
      parent table, as long as line and probe fit a document. */
  lemma ProbeFindsHeader(line: ByteString, parent: KeyPath)
    requires line != [] && NextLine(line, 0) == |line| && Classify(line) != Bad
    ensures HeaderMatches(TOML, line, parent) <==>
      Classify(line) == Header(parent) && |line| + |PROBE_SUFFIX| <= MAXIMUM_DOCUMENT_BYTES
  {
    hide Classify, Parse, SkipBlanks, Bindings, HeadersFrom;
    if Classify(line).Header? {
      var path := Classify(line).path;
      HeaderBracket(line);
      ProbedHeader(line, path);
      LongerIsNoPrefix(path, PROBE_KEY);
      ParsesToOne(line + PROBE_SUFFIX, path + [PROBE_KEY], Integer(0));
      ProbeMatches(Parse(line + PROBE_SUFFIX).value, path, parent);
    } else {
      NoHeaderNoBracket(line);
    }
  }

  // ---------------------------------------------------------------------------
  // The insertion point

  /** Line `i` is the header of `parent`. */
  predicate HeaderAt(doc: ByteString, i: nat, parent: KeyPath) {
    i < |doc| && LineStart(doc, i) && Classify(doc[i..NextLine(doc, i)]) == Header(parent)
  }

  /** Line `i` is the header of `parent`, and with the probe behind it fits a document. */
  predicate Headed(doc: ByteString, i: nat, parent: KeyPath) {
    HeaderAt(doc, i, parent) && NextLine(doc, i) - i + |PROBE_SUFFIX| <= MAXIMUM_DOCUMENT_BYTES
  }

  /** A line of a fragment document never starts inside a value. */
  lemma NeverInsideValue(current: Snapshot, all: seq<Located>, line: nat)
    requires BindingsOfDocument(current, all) && line < |current.revision.bytes| && LineStart(current.revision.bytes, line)
    ensures !InsideValue(current, line)
  {
    hide Locate, EntryOf, NextLine, LineStart;
    var doc := current.revision.bytes;
    forall key | key in current.overrides.Keys
      ensures !(current.overrides[key].source.begin < line < current.overrides[key].source.end)
    {
      var x := BindingOfEntry(current, all, key);
      BindingsOnLines(current, all);
      OnLineBounds(doc, x);
      EntrySpan(doc, x);
      if x.span.begin < line {
        LinesDoNotOverlap(doc, x.line, line);
      }
    }
  }

  lemma EntrySpan(doc: ByteString, x: Located)
    ensures EntryOf(doc, x).source == x.span
  {}

  lemma LineAlone(doc: ByteString, i: nat)
    requires i < |doc|
    ensures var line := doc[i..NextLine(doc, i)]; line != [] && NextLine(line, 0) == |line|
  {
    var n := NextLine(doc, i);
    var line := doc[i..n];
    LineBytes(doc, i);
    var newline := Bytes.Find(line, NEWLINE, 0);
    assert newline < |line| ==> doc[i + newline] == NEWLINE;
  }

  /** The search finds the first header of the table from `line` on. */
  lemma {:induction false} PointFromMeaning(current: Snapshot, all: seq<Located>, parent: KeyPath, line: nat, section: KeyPath)
    requires BindingsOfDocument(current, all) && line <= |current.revision.bytes|
    requires line == |current.revision.bytes| || LineStart(current.revision.bytes, line)
    requires Locate(current.revision.bytes, line, section).Some?
    ensures var doc := current.revision.bytes;
      match PointFrom(TOML, current, parent, line)
      case None => forall i: nat :: i >= line ==> !Headed(doc, i, parent)
      case Some(point) =>
        exists i: nat :: i >= line && Headed(doc, i, parent) && point == NextLine(doc, i)
          && forall j: nat :: line <= j < i ==> !Headed(doc, j, parent)
    decreases |current.revision.bytes| - line
  {
    hide Locate, Classify, HeaderMatches, InsideValue, NextLine, LineStart, BindingsOfDocument;
    var doc := current.revision.bytes;
    if line < |doc| {
      var next := NextLine(doc, line);
      NextLineInside(doc, line);
      NeverInsideValue(current, all, line);
      LineAlone(doc, line);
      LocateStep(doc, line, section);
      NextLineStarts(doc, line);
      assert |doc[line..next]| == next - line;
      ProbeFindsHeader(doc[line..next], parent);
      forall j: nat | line < j < next ensures !Headed(doc, j, parent) {
        NoLineInside(doc, line, j);
      }
      if Headed(doc, line, parent) {
        assert PointFrom(TOML, current, parent, line) == Some(next);
      } else {
        PointFromMeaning(current, all, parent, next, SectionAfter(Classify(doc[line..next]), section));
        assert PointFrom(TOML, current, parent, line) == PointFrom(TOML, current, parent, next);
      }
    }
  }

  lemma NoLineInside(doc: ByteString, i: nat, j: nat)
    requires i < |doc| && i < j < NextLine(doc, i)
    ensures !LineStart(doc, j)
  {
    if LineStart(doc, j) {
      LinesDoNotOverlap(doc, i, j);
    }
  }

  /** A key of a table is inserted right after the table's header, and a table
      without a header, or with one too long to be probed, is appended; root keys go
      to the front. */
  lemma InsertionPointMeaning(current: Snapshot, parent: KeyPath)
    requires Parse(current.revision.bytes) == Some(current.overrides)
    ensures var doc := current.revision.bytes;
      match PointOf(TOML, current, parent)
      case None => parent != [] && forall i: nat :: !Headed(doc, i, parent)
      case Some(point) =>
        if parent == [] then point == 0
        else exists i: nat :: Headed(doc, i, parent) && point == NextLine(doc, i)
  {
    hide Locate, Parse, HeaderAt, NextLine, Headed;
    ParsedIsLocated(current);
    var all := Locate(current.revision.bytes, 0, []).value;
    if parent != [] {
      LocatedAtStart(current, all);
      PointFromMeaning(current, all, parent, 0, []);
    }
  }

  lemma ParsedIsLocated(current: Snapshot)
    requires Parse(current.revision.bytes) == Some(current.overrides)
    ensures Locate(current.revision.bytes, 0, []).Some?
    ensures BindingsOfDocument(current, Locate(current.revision.bytes, 0, []).value)
  {}
}
