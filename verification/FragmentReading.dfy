/** Reading lines with all they leave behind: bindings, headers, and the section in
    force after them. Over whole lines, reading is a fold. */
module FragmentReading {
  import opened Bytes
  import opened Documents
  import opened Patch
  import opened Fragment
  import opened FragmentLines
  import opened FragmentFrame
  import opened FragmentTally
  import opened FragmentPlan
  import opened FragmentLiterals
  import opened FragmentInsertion
  import Quoting
  import Scanner

  datatype Reading = Reading(bindings: seq<Binding>, headers: seq<KeyPath>, section: KeyPath)

  function Joined(a: Reading, b: Reading): Reading {
    Reading(a.bindings + b.bindings, a.headers + b.headers, b.section)
  }

  /** What one line leaves behind. */
  function LineReading(kind: LineKind, section: KeyPath): Reading {
    Reading(BindingOf(kind, section), HeaderOf(kind), SectionAfter(kind, section))
  }

  function Read(s: ByteString, section: KeyPath): Option<Reading>
    decreases |s|
  {
    if s == [] then Some(Reading([], [], section))
    else ReadOn(Classify(s[..NextLine(s, 0)]), section, Read(s[NextLine(s, 0)..], AfterLine(s, section)))
  }

  function AfterLine(s: ByteString, section: KeyPath): KeyPath
    requires s != []
  {
    SectionAfter(Classify(s[..NextLine(s, 0)]), section)
  }

  /** A line and what follows it. */
  function ReadOn(kind: LineKind, section: KeyPath, rest: Option<Reading>): Option<Reading> {
    if kind == Bad || rest.None? then None else Some(Joined(LineReading(kind, section), rest.value))
  }

  lemma ReadLine(line: ByteString, rest: ByteString, section: KeyPath)
    requires IsLine(line) || (line != [] && NextLine(line, 0) == |line| && rest == [])
    ensures Read(line + rest, section)
         == ReadOn(Classify(line), section, Read(rest, SectionAfter(Classify(line), section)))
  {
    hide Classify, ReadOn;
    Scanner.NextLineOfPrefix(line, rest);
    assert (line + rest)[..|line|] == line && (line + rest)[|line|..] == rest;
  }

  /** Whole lines. */
  predicate Whole(s: ByteString) {
    LineStart(s, |s|)
  }

  lemma JoinedAgain(a: Reading, b: Reading, c: Reading)
    ensures Joined(Joined(a, b), c) == Joined(a, Joined(b, c))
  {}

  lemma NothingRead(section: KeyPath, r: Reading)
    ensures Read([], section) == Some(Reading([], [], section))
    ensures Joined(Reading([], [], section), r) == r
    ensures Joined(r, Reading([], [], r.section)) == r
  {}

  lemma {:induction false} ReadJoin(a: ByteString, b: ByteString, section: KeyPath, ra: Reading, rb: Reading)
    requires Whole(a) && Read(a, section) == Some(ra) && Read(b, ra.section) == Some(rb)
    ensures Read(a + b, section) == Some(Joined(ra, rb))
    ensures Whole(b) ==> Whole(a + b)
    decreases |a|
  {
    hide Classify, Joined, LineReading, NextLine;
    if a == [] {
      assert a + b == b;
      NothingRead(section, rb);
    } else {
      NextLineInside(a, 0);
      var n := NextLine(a, 0);
      var line, more := a[..n], a[n..];
      WholeLines(a);
      var kind := Classify(line);
      var rest := Read(more, SectionAfter(kind, section)).value;
      assert ra == Joined(LineReading(kind, section), rest);
      JoinedSection(LineReading(kind, section), rest);
      ReadJoin(more, b, SectionAfter(kind, section), rest, rb);
      ReadLine(line, more + b, section);
      Associative(line, more, b);
      JoinedAgain(LineReading(kind, section), rest, rb);
    }
  }

  lemma JoinedSection(a: Reading, b: Reading)
    ensures Joined(a, b).section == b.section
  {}

  lemma WholeLines(a: ByteString)
    requires a != [] && Whole(a)
    ensures var n := NextLine(a, 0);
      a[n - 1] == NEWLINE && IsLine(a[..n]) && Whole(a[n..]) && a == a[..n] + a[n..]
  {
    var n := NextLine(a, 0);
    assert a[|a| - 1] == NEWLINE;
    FirstLineIsLine(a);
  }

  // ---------------------------------------------------------------------------
  // Reading and parsing

  lemma {:induction false} ReadIsBindings(s: ByteString, section: KeyPath)
    ensures Read(s, section).None? <==> Bindings(s, section).None?
    ensures Read(s, section).Some? ==> Bindings(s, section) == Some(Read(s, section).value.bindings)
    decreases |s|
  {
    hide Classify, NextLine;
    if s != [] {
      NextLineInside(s, 0);
      var n := NextLine(s, 0);
      ReadIsBindings(s[n..], AfterLine(s, section));
      if Read(s, section).Some? && !Classify(s[..n]).Assign? {
        var rest := Read(s[n..], AfterLine(s, section)).value.bindings;
        assert [] + rest == rest;
      }
    }
  }

  lemma {:induction false} ReadIsHeaders(s: ByteString, section: KeyPath)
    requires Read(s, section).Some?
    ensures HeadersFrom(s, 0) == Read(s, section).value.headers
    decreases |s|
  {
    hide Classify, NextLine, HeadersFrom;
    if s == [] {
      NoHeaders(s);
    } else {
      NextLineInside(s, 0);
      var n := NextLine(s, 0);
      ReadIsHeaders(s[n..], AfterLine(s, section));
      HeadersStep(s, 0);
      HeadersOfSuffix(s, n);
      assert s[0..n] == s[..n];
    }
  }

  lemma DistinctTogether(a: seq<KeyPath>, b: seq<KeyPath>)
    requires Distinct(a) && Distinct(b)
    ensures Distinct(a + b) <==> forall x :: x in b ==> x !in a
  {
    var all := a + b;
    if forall x :: x in b ==> x !in a {
      forall i, j | 0 <= i < j < |all| ensures all[i] != all[j] {
        assert i < |a| ==> all[i] in a;
        assert j >= |a| ==> all[j] in b;
      }
    } else {
      var x :| x in b && x in a;
      var i :| 0 <= i < |a| && a[i] == x;
      var j :| 0 <= j < |b| && b[j] == x;
      assert all[i] == all[|a| + j];
    }
  }

  // ---------------------------------------------------------------------------
  // What insertions are made of

  type Row = (Key, Value)

  ghost predicate LiteralRows(rows: seq<Row>) {
    forall k :: 0 <= k < |rows| ==> Literal(rows[k].1)
  }

  function LinesOf(doc: ByteString, rows: seq<Row>): ByteString {
    if rows == [] then []
    else
      var last := |rows| - 1;
      LinesOf(doc, rows[..last]) + InsertedLine(TOML, doc, rows[last].0, rows[last].1)
  }

  /** The bindings of key lines under a section. */
  function Bound(section: KeyPath, rows: seq<Row>): (bindings: seq<Binding>)
    ensures |bindings| == |rows|
    ensures forall k :: 0 <= k < |rows| ==> bindings[k] == (section + [rows[k].0], rows[k].1)
  {
    seq(|rows|, k requires 0 <= k < |rows| => (section + [rows[k].0], rows[k].1))
  }

  lemma LineEndings(doc: ByteString)
    ensures LineEnding(doc) == [NEWLINE] || LineEnding(doc) == [RETURN, NEWLINE]
  {
    hide HasCrlf;
  }

  lemma InsertedAssign(doc: ByteString, key: Key, value: Value)
    requires Literal(value)
    ensures var line := InsertedLine(TOML, doc, key, value);
      IsLine(line) && Classify(line).Assign? && Classify(line).key == key && Classify(line).value == value
  {
    hide Classify, Print, PrintText, KeyText, Literal, IsLine, LineEnding;
    var body := PrintText(key) + ASSIGN + Print(value);
    PrintedKey(key);
    PrintedAssign(key, value);
    PrintIsInline(value);
    PrintHasNoReturn(value);
    PrintHasNoReturn(Text(key));
    PrintedText(key);
    LiteralInFragment(value);
    LineEndings(doc);
    assert InsertedLine(TOML, doc, key, value) == body + LineEnding(doc);
    assert NEWLINE !in body && RETURN !in body;
    StripTerminated(body, LineEnding(doc));
    StripTerminated(body, [NEWLINE]);
    SameContentSameKind(body + LineEnding(doc), body + [NEWLINE]);
    TerminatedIsLine(body, LineEnding(doc));
  }

  lemma LiteralInFragment(value: Value)
    requires Literal(value)
    ensures InFragment(value)
  {}

  lemma TerminatedIsLine(body: ByteString, ending: ByteString)
    requires NEWLINE !in body && (ending == [NEWLINE] || ending == [RETURN, NEWLINE])
    ensures IsLine(body + ending)
  {
    OneLine(body + ending);
  }

  lemma ReadAssign(line: ByteString, section: KeyPath)
    requires IsLine(line) && Classify(line).Assign?
    ensures Whole(line)
    ensures Read(line, section) == Some(Reading([(section + [Classify(line).key], Classify(line).value)], [], section))
  {
    hide Classify;
    assert line + [] == line;
    ReadLine(line, [], section);
    var here := LineReading(Classify(line), section);
    NothingRead(section, here);
  }

  /** Key lines bind exactly their rows, under the section they stand in. */
  lemma {:induction false} RowsRead(doc: ByteString, rows: seq<Row>, section: KeyPath)
    requires LiteralRows(rows)
    ensures Whole(LinesOf(doc, rows))
    ensures Read(LinesOf(doc, rows), section) == Some(Reading(Bound(section, rows), [], section))
  {
    hide Read, InsertedLine, Literal, Classify;
    if rows == [] {
      NothingRead(section, Reading([], [], section));
      assert Bound(section, rows) == [];
    } else {
      var last := |rows| - 1;
      var (key, value) := rows[last];
      var line := InsertedLine(TOML, doc, key, value);
      RowsRead(doc, rows[..last], section);
      InsertedAssign(doc, key, value);
      ReadAssign(line, section);
      var front, here := Reading(Bound(section, rows[..last]), [], section), Reading([(section + [key], value)], [], section);
      ReadJoin(LinesOf(doc, rows[..last]), line, section, front, here);
      assert Bound(section, rows) == Bound(section, rows[..last]) + [(section + [key], value)];
      assert Joined(front, here) == Reading(Bound(section, rows), [], section);
    }
  }

  lemma BlankLineRead(doc: ByteString, section: KeyPath)
    ensures Whole(LineEnding(doc)) && Read(LineEnding(doc), section) == Some(Reading([], [], section))
  {
    hide HasCrlf, Classify;
    LineEndings(doc);
    var line := LineEnding(doc);
    TerminatedIsLine([], line);
    assert [] + line == line && line + [] == line;
    StripTerminated([], line);
    BlankContent(line);
    ReadLine(line, [], section);
    NothingRead(section, LineReading(Blank, section));
  }

  lemma BlankContent(line: ByteString)
    requires Strip(line) == []
    ensures Classify(line) == Blank
  {}

  // ---------------------------------------------------------------------------
  // Header lines

  lemma KeyTextLast(path: KeyPath)
    requires path != []
    ensures var front, text := KeyText(TOML, path[..|path| - 1]), PrintText(path[|path| - 1]);
      KeyText(TOML, path) == (if front == [] then [] else front + [DOT]) + text
    ensures KeyText(TOML, path) != []
  {
    hide Print, PrintText;
    PrintedText(path[|path| - 1]);
    StartsWithQuote(path[|path| - 1]);
  }

  lemma KeyTextOne(key: Key)
    ensures KeyText(TOML, [key]) == PrintText(key)
  {
    hide PrintText;
    PrintedKey(key);
  }

  lemma {:induction false} KeyTextFront(path: KeyPath)
    requires |path| > 1
    ensures KeyText(TOML, path) == PrintText(path[0]) + ([DOT] + KeyText(TOML, path[1..]))
  {
    hide *;
    var last := |path| - 1;
    var front, rest := path[..last], path[1..];
    KeyTextLast(path);
    KeyTextLast(rest);
    KeyTextLast(front);
    assert rest[..last - 1] == front[1..] && rest[last - 1] == path[last];
    if last == 1 {
      assert front == [path[0]] && rest == [path[1]];
      KeyTextOne(path[0]);
      KeyTextOne(path[1]);
    } else {
      KeyTextFront(front);
      KeyTextLast(front[1..]);
      var head, middle, text := PrintText(path[0]), KeyText(TOML, front[1..]), PrintText(path[last]);
      assert head + ([DOT] + middle) + [DOT] + text == head + ([DOT] + (middle + [DOT] + text));
    }
  }

  lemma LexStart(s: ByteString, key: Key, n: nat)
    requires s != [] && s[0] == QUOTE && LexKey(s) == Some((key, n)) && n <= |s|
    ensures LexHeader(s) == LexHeaderAfter(s, key, n)
  {
    hide LexKey, LexHeaderAfter;
    CountSpaceUnique(s, 0);
    assert s[0..] == s;
  }

  lemma LexHeaderOne(text: ByteString, key: Key)
    requires text != [] && text[0] == QUOTE && LexKey(text + [CLOSE_BRACKET]) == Some((key, |text|))
    ensures LexHeader(text + [CLOSE_BRACKET]) == Some(([key], |text| + 1))
  {
    hide LexKey, LexHeader;
    var s := text + [CLOSE_BRACKET];
    LexStart(s, key, |text|);
    CountSpaceUnique(s[|text|..], 0);
  }

  lemma LexHeaderMore(text: ByteString, key: Key, more: ByteString, path: KeyPath, m: nat)
    requires text != [] && text[0] == QUOTE && LexKey(text + ([DOT] + more)) == Some((key, |text|))
    requires LexHeader(more) == Some((path, m))
    ensures LexHeader(text + ([DOT] + more)) == Some(([key] + path, |text| + 1 + m))
  {
    hide LexKey, LexHeader, LexHeaderAfter;
    var s := text + ([DOT] + more);
    DotParts(text, more);
    LexStart(s, key, |text|);
    LexAfterDot(s, key, |text|, more);
  }

  lemma DotParts(text: ByteString, more: ByteString)
    requires text != []
    ensures var s := text + ([DOT] + more);
      s != [] && s[0] == text[0] && |text| < |s| && s[|text|] == DOT && s[|text| + 1..] == more
  {}

  lemma LexAfterDot(s: ByteString, key: Key, end: nat, more: ByteString)
    requires end < |s| && s[end] == DOT && s[end + 1..] == more
    ensures LexHeaderAfter(s, key, end) == match LexHeader(more)
      case None => None
      case Some((rest, m)) => Some(([key] + rest, end + 1 + m))
  {
    hide LexHeader;
    CountSpaceUnique(s[end..], 0);
  }

  /** A printed path reads back up to its closing bracket. */
  lemma {:induction false} PrintedPathReadsBack(path: KeyPath)
    requires path != []
    ensures LexHeader(KeyText(TOML, path) + [CLOSE_BRACKET]) == Some((path, |KeyText(TOML, path)| + 1))
  {
    hide *;
    var text := PrintText(path[0]);
    StartsWithQuote(path[0]);
    if |path| == 1 {
      assert path == [path[0]];
      KeyTextOne(path[0]);
      PrintedKeyReadsBack(path[0], [CLOSE_BRACKET]);
      LexHeaderOne(text, path[0]);
    } else {
      KeyTextFront(path);
      PrintedPathReadsBack(path[1..]);
      var rest := KeyText(TOML, path[1..]);
      var more := rest + [CLOSE_BRACKET];
      PrintedKeyReadsBack(path[0], [DOT] + more);
      LexHeaderMore(text, path[0], more, path[1..], |rest| + 1);
      assert text + ([DOT] + rest) + [CLOSE_BRACKET] == text + ([DOT] + more);
      assert path == [path[0]] + path[1..];
    }
  }

  lemma {:induction false} KeyTextHasNoReturn(path: KeyPath)
    ensures RETURN !in KeyText(TOML, path)
  {
    hide Print;
    if path != [] {
      KeyTextHasNoReturn(path[..|path| - 1]);
      PrintHasNoReturn(Text(path[|path| - 1]));
    }
  }

  lemma HeaderLineKind(doc: ByteString, parent: KeyPath)
    requires parent != []
    ensures IsLine(HeaderLine(doc, parent)) && Classify(HeaderLine(doc, parent)) == Header(parent)
  {
    hide LexHeader, KeyText, ClassifyAssign, IsTrail, HasCrlf;
    var text := KeyText(TOML, parent);
    var s := [OPEN_BRACKET] + text + [CLOSE_BRACKET];
    KeyTextIsInline(parent);
    KeyTextHasNoReturn(parent);
    PrintedPathReadsBack(parent);
    LineEndings(doc);
    assert HeaderLine(doc, parent) == s + LineEnding(doc);
    assert NEWLINE !in s && RETURN !in s;
    StripTerminated(s, LineEnding(doc));
    TerminatedIsLine(s, LineEnding(doc));
    CountSpaceUnique(s, 0);
    assert s[0..] == s && s[1..] == text + [CLOSE_BRACKET] && s[1 + (|text| + 1)..] == [];
    EmptyTrail();
    BracketIsNoTrail(s);
  }

  lemma BracketIsNoTrail(s: ByteString)
    requires s != [] && s[0] == OPEN_BRACKET
    ensures !IsTrail(s)
  {
    CountSpaceUnique(s, 0);
    assert s[0..] == s;
  }

  lemma HeaderLineRead(doc: ByteString, parent: KeyPath, section: KeyPath)
    requires parent != []
    ensures Whole(HeaderLine(doc, parent))
    ensures Read(HeaderLine(doc, parent), section) == Some(Reading([], [parent], parent))
  {
    hide Classify, HeaderLine;
    var line := HeaderLine(doc, parent);
    HeaderLineKind(doc, parent);
    assert line + [] == line;
    ReadLine(line, [], section);
    NothingRead(parent, LineReading(Header(parent), section));
  }

  // ---------------------------------------------------------------------------
  // Lines with a new value

  /** Two texts that start alike. */
  predicate Alike(s: ByteString, t: ByteString, n: nat) {
    n <= |s| && n <= |t| && s[..n] == t[..n]
  }

  lemma AlikeRest(s: ByteString, t: ByteString, n: nat, k: nat)
    requires Alike(s, t, n) && k <= n
    ensures Alike(s[k..], t[k..], n - k)
    ensures forall i :: 0 <= i < n ==> s[i] == t[i]
  {
    assert forall i :: 0 <= i < n ==> s[i] == s[..n][i] == t[..n][i] == t[i];
  }

  lemma EscapeIsLocal(s: ByteString, t: ByteString)
    requires s != [] && t != [] && Quoting.DecodeEscape(s).Some? && Alike(s, t, Quoting.DecodeEscape(s).value.1)
    ensures Quoting.DecodeEscape(t) == Quoting.DecodeEscape(s)
  {
    var n := Quoting.DecodeEscape(s).value.1;
    AlikeRest(s, t, n, 0);
    assert n >= 2;
    assert s[2..n] == t[2..n];
  }

  lemma {:induction false} BodyIsLocal(s: ByteString, t: ByteString)
    requires Quoting.DecodeBody(s).Some? && Alike(s, t, Quoting.DecodeBody(s).value.1)
    ensures Quoting.DecodeBody(t) == Quoting.DecodeBody(s)
    decreases |s|
  {
    hide Quoting.DecodeEscape;
    var n := Quoting.DecodeBody(s).value.1;
    AlikeRest(s, t, n, 0);
    if s[0] != QUOTE {
      var step := if s[0] == BACKSLASH then Quoting.DecodeEscape(s).value.1 else 1;
      AlikeRest(s, t, n, step);
      if s[0] == BACKSLASH {
        assert Alike(s, t, step);
        EscapeIsLocal(s, t);
      }
      BodyIsLocal(s[step..], t[step..]);
    }
  }

  lemma {:induction false} LiteralIsLocal(s: ByteString, t: ByteString)
    requires LexLiteral(s).Some? && Alike(s, t, LexLiteral(s).value.1)
    ensures LexLiteral(t) == LexLiteral(s)
  {
    var n := LexLiteral(s).value.1;
    AlikeRest(s, t, n, 0);
    if s[0] != APOSTROPHE {
      AlikeRest(s, t, n, 1);
      LiteralIsLocal(s[1..], t[1..]);
    }
  }

  lemma {:induction false} CountBareStops(s: ByteString)
    ensures CountBare(s) < |s| ==> !IsBareKeyByte(s[CountBare(s)])
  {
    if s != [] && IsBareKeyByte(s[0]) {
      CountBareStops(s[1..]);
    }
  }

  lemma KeyIsLocal(s: ByteString, t: ByteString)
    requires LexKey(s).Some? && LexKey(s).value.1 < |s| && Alike(s, t, LexKey(s).value.1 + 1)
    ensures LexKey(t) == LexKey(s)
  {
    var n := LexKey(s).value.1;
    AlikeRest(s, t, n + 1, 1);
    if s[0] == QUOTE {
      BodyIsLocal(s[1..], t[1..]);
    } else if s[0] == APOSTROPHE {
      LiteralIsLocal(s[1..], t[1..]);
    } else {
      CountBareStops(s);
      CountBareUnique(t, n);
      assert t[..n] == s[..n];
    }
  }

  lemma ScalarBeforeTrail(value: Value, after: ByteString)
    requires Literal(value) && IsTrail(after)
    ensures LexScalar(Print(value) + after) == Some((value, |Print(value)|))
    ensures Print(value) != [] && !IsSpaceOrTab(Print(value)[0])
  {
    hide LexScalar;
    ScalarReadsBack(value);
    if value.Text? {
      TextBeforeTrail(value.text, after);
    } else {
      BareBeforeTrail(value, after);
    }
  }

  lemma TextBeforeTrail(text: ByteString, after: ByteString)
    ensures LexScalar(Print(Text(text)) + after) == Some((Text(text), |Print(Text(text))|))
  {
    hide EscapeBytes, Quoting.DecodeBody;
    EscapedBytesDecode(text, after);
    assert (PrintText(text) + after)[1..] == EscapeBytes(text) + ([QUOTE] + after);
  }

  lemma TrailStops(after: ByteString)
    requires IsTrail(after) && after != []
    ensures !IsBareKeyByte(after[0])
  {}

  lemma BareBeforeTrail(value: Value, after: ByteString)
    requires Literal(value) && !value.Text? && IsTrail(after)
    requires LexScalar(Print(value)) == Some((value, |Print(value)|)) && Print(value) != []
    ensures LexScalar(Print(value) + after) == Some((value, |Print(value)|))
  {
    hide CountBare, PrintNat, IntegerOf, IsTrail, Literal;
    var s := Print(value);
    BareValue(value);
    AllBare(s);
    assert s[..|s|] == s;
    if after == [] {
      assert s + after == s;
    } else {
      TrailStops(after);
      CountBareUnique(s + after, |s|);
      assert (s + after)[..|s|] == s;
    }
  }

  lemma BareValue(value: Value)
    requires Literal(value) && !value.Text?
    ensures forall i :: 0 <= i < |Print(value)| ==> IsBareKeyByte(Print(value)[i])
  {
    hide PrintNat;
    if value.Integer? {
      PrintedDigits(if value.number < 0 then -value.number else value.number);
    }
  }

  lemma AssignSteps(t: ByteString)
    requires ClassifyAssign(t).Assign?
    ensures LexKey(t).Some? && LexKey(t).value.0 == ClassifyAssign(t).key
    ensures var n := LexKey(t).value.1;
      var equal := n + CountSpace(t[n..]);
      && equal < |t| && t[equal] == EQUALS
      && ClassifyAssign(t).begin == equal + 1 + CountSpace(t[equal + 1..])
      && ClassifyAssign(t).end <= |t| && IsTrail(t[ClassifyAssign(t).end..])
  {
    hide LexKey, LexScalar, CountBare;
  }

  lemma SpaceIsLocal(s: ByteString, t: ByteString, from: nat, n: nat)
    requires from + n <= |s| && Alike(s, t, from + n) && CountSpace(s[from..]) == n
    requires from + n < |t| && !IsSpaceOrTab(t[from + n])
    ensures CountSpace(t[from..]) == n
  {
    AlikeRest(s, t, from + n, 0);
    forall i | 0 <= i < n ensures IsSpaceOrTab(t[from..][i]) {
      assert s[from..][i] == s[from + i] == t[from + i];
    }
    CountSpaceUnique(t[from..], n);
  }

  lemma AssignOfParts(u: ByteString, key: Key, n: nat, equal: nat, begin: nat, value: Value, size: nat)
    requires LexKey(u) == Some((key, n)) && n <= equal < begin <= |u|
    requires CountSpace(u[n..]) == equal - n && u[equal] == EQUALS && CountSpace(u[equal + 1..]) == begin - (equal + 1)
    requires LexScalar(u[begin..]) == Some((value, size)) && begin + size <= |u| && IsTrail(u[begin + size..])
    ensures ClassifyAssign(u) == Assign(key, value, begin, begin + size)
  {
    hide LexKey, LexScalar, CountSpace, IsTrail;
  }

  /** An assignment with another value, up to the indentation. */
  lemma SetContent(t: ByteString, value: Value)
    requires ClassifyAssign(t).Assign? && Literal(value)
    ensures ClassifyAssign(t).begin <= ClassifyAssign(t).end <= |t|
    ensures var b := ClassifyAssign(t).begin;
      ClassifyAssign(t[..b] + Print(value) + t[ClassifyAssign(t).end..])
      == Assign(ClassifyAssign(t).key, value, b, b + |Print(value)|)
  {
    hide LexKey, LexScalar, Print, Literal, IsTrail, ClassifyAssign, CountSpace, Alike;
    var Assign(key, _, b, e) := ClassifyAssign(t);
    AssignSteps(t);
    var text, after := Print(value), t[e..];
    ScalarBeforeTrail(value, after);
    var u := t[..b] + text + after;
    var n := LexKey(t).value.1;
    var equal := n + CountSpace(t[n..]);
    SetIsAlike(t, u, b, text, after);
    AlikeLess(t, u, b, n + 1);
    KeyIsLocal(t, u);
    AlikeLess(t, u, b, equal);
    SpaceIsLocal(t, u, n, equal - n);
    SpaceIsLocal(t, u, equal + 1, b - (equal + 1));
    AssignOfParts(u, key, n, equal, b, value, |text|);
  }

  lemma SetIsAlike(t: ByteString, u: ByteString, b: nat, text: ByteString, after: ByteString)
    requires b <= |t| && u == t[..b] + text + after && text != []
    ensures Alike(t, u, b) && u[b] == text[0] && u[b..] == text + after && u[b + |text|..] == after
    ensures forall i :: 0 <= i < b ==> u[i] == t[i]
  {}

  lemma AlikeLess(s: ByteString, t: ByteString, n: nat, k: nat)
    requires Alike(s, t, n) && k <= n
    ensures Alike(s, t, k)
  {
    assert s[..n][..k] == s[..k] && t[..n][..k] == t[..k];
  }

  lemma AssignStart(t: ByteString)
    requires ClassifyAssign(t).Assign?
    ensures t != [] && !IsSpaceOrTab(t[0]) && t[0] != HASH && t[0] != OPEN_BRACKET && ClassifyAssign(t).begin >= 1
  {}

  lemma ClassifyContent(line: ByteString, w: nat)
    requires RETURN !in Strip(line) && w <= |Strip(line)|
    requires CountSpace(Strip(line)) == w && ClassifyAssign(Strip(line)[w..]).Assign?
    ensures var kind := ClassifyAssign(Strip(line)[w..]);
      Classify(line) == Assign(kind.key, kind.value, w + kind.begin, w + kind.end)
  {
    hide ClassifyAssign;
    var t := Strip(line)[w..];
    AssignStart(t);
    CountSpaceUnique(t, 0);
    assert t[0..] == t;
  }

  lemma AssignContent(line: ByteString)
    requires Classify(line).Assign?
    ensures var s := Strip(line);
      var w := CountSpace(s);
      && RETURN !in s && ClassifyAssign(s[w..]).Assign? && ClassifyAssign(s[w..]).key == Classify(line).key
      && Classify(line).begin == w + ClassifyAssign(s[w..]).begin && Classify(line).end == w + ClassifyAssign(s[w..]).end
      && Classify(line).end <= |s|
  {
    hide ClassifyAssign, ClassifyHeader, IsTrail;
  }

  predicate IsEnding(s: ByteString) {
    s == [] || s == [NEWLINE] || s == [RETURN, NEWLINE]
  }

  lemma EndingOfLine(line: ByteString)
    ensures IsEnding(line[|Strip(line)|..]) && line[..|Strip(line)|] == Strip(line)
    ensures NEWLINE !in line ==> Strip(line) == line
  {
    if NEWLINE !in line {
      StripUnterminated(line);
    }
  }

  lemma StripEnded(s: ByteString, ending: ByteString)
    requires NEWLINE !in s && RETURN !in s && IsEnding(ending)
    ensures Strip(s + ending) == s
  {
    if ending == [] {
      assert s + ending == s;
      StripUnterminated(s);
    } else {
      StripTerminated(s, ending);
    }
  }

  lemma StripSet(line: ByteString, b: nat, e: nat, text: ByteString, ending: ByteString)
    requires b <= e <= |Strip(line)| && RETURN !in Strip(line)
    requires text != [] && NEWLINE !in text && RETURN !in text && NEWLINE !in Strip(line)[e..]
    requires ending == [] || (NEWLINE !in line && (ending == [NEWLINE] || ending == [RETURN, NEWLINE]))
    requires NEWLINE !in Strip(line)[..b]
    ensures Strip(line[..b] + text + line[e..] + ending) == Strip(line)[..b] + text + Strip(line)[e..]
    ensures RETURN !in Strip(line)[..b] + text + Strip(line)[e..]
  {
    hide Strip;
    var s := Strip(line);
    var u := s[..b] + text + s[e..];
    EndingOfLine(line);
    RestOfContent(line, e);
    NotInPart(s, 0, b, RETURN);
    NotInPart(s, e, |s|, RETURN);
    var last := line[|s|..] + ending;
    assert IsEnding(last);
    assert line[..b] == line[..|s|][..b] == s[..b];
    assert line[..b] + text + line[e..] + ending == u + last;
    StripEnded(u, last);
  }

  /** Replacing the value leaves the assignment of the new one. */
  lemma SetLineKind(line: ByteString, value: Value, ending: ByteString)
    requires Classify(line).Assign? && Literal(value) && OnlyLast(line)
    requires ending == [] || (NEWLINE !in line && (ending == [NEWLINE] || ending == [RETURN, NEWLINE]))
    ensures var Assign(key, _, begin, end) := Classify(line);
      Classify(line[..begin] + Print(value) + line[end..] + ending) == Assign(key, value, begin, begin + |Print(value)|)
  {
    hide *;
    AssignContent(line);
    var s, w := Strip(line), CountSpace(Strip(line));
    var t, text := s[w..], Print(value);
    var Assign(key, _, b, e) := ClassifyAssign(t);
    AssignStart(t);
    SetContent(t, value);
    LiteralInFragment(value);
    PrintIsInline(value);
    PrintHasNoReturn(value);
    ScalarReadsBack(value);
    StripInline(line);
    NotInPart(s, 0, w + b, NEWLINE);
    NotInPart(s, w + e, |s|, NEWLINE);
    StripSet(line, w + b, w + e, text, ending);
    var other := line[..w + b] + text + line[w + e..] + ending;
    SetIndented(s, w, b, e, text);
    ClassifyContent(other, w);
  }

  lemma NotInPart(s: ByteString, from: nat, to: nat, b: Byte)
    requires b !in s && from <= to <= |s|
    ensures b !in s[from..to] && (from == 0 ==> s[from..to] == s[..to]) && (to == |s| ==> s[from..to] == s[from..])
  {
    forall x | x in s[from..to] ensures x in s {}
  }

  lemma SetIndented(s: ByteString, w: nat, b: nat, e: nat, text: ByteString)
    requires w == CountSpace(s) && 1 <= b <= e <= |s| - w
    ensures CountSpace(s[..w + b] + text + s[w + e..]) == w
    ensures (s[..w + b] + text + s[w + e..])[w..] == s[w..][..b] + text + s[w..][e..]
  {
    var u := s[..w + b] + text + s[w + e..];
    assert forall i :: 0 <= i <= w ==> u[i] == s[i];
    CountSpaceUnique(u, w);
  }

  lemma StripInline(line: ByteString)
    requires OnlyLast(line)
    ensures NEWLINE !in Strip(line)
  {}
}
