/** Bindings of a text read line by line, and what editing one line does to them. */
module FragmentLines {
  import opened Bytes
  import opened Documents
  import opened Fragment
  import Scanner
  import Quoting

  type Binding = (KeyPath, Value)

  /** The bindings of a text that starts a line, under `section`. */
  function Bindings(s: ByteString, section: KeyPath): Option<seq<Binding>>
    decreases |s|
  {
    if s == [] then Some([])
    else
      var next := NextLine(s, 0);
      match Classify(s[..next])
      case Bad => None
      case Blank => Bindings(s[next..], section)
      case Header(path) => Bindings(s[next..], path)
      case Assign(key, value, _, _) =>
        match Bindings(s[next..], section)
        case None => None
        case Some(rest) => Some([(section + [key], value)] + rest)
  }

  function Pair(located: Located): Binding {
    (located.key, located.value)
  }

  function Pairs(located: seq<Located>): seq<Binding> {
    if located == [] then [] else [Pair(located[0])] + Pairs(located[1..])
  }

  lemma {:induction false} LocateGivesBindings(bytes: ByteString, i: nat, section: KeyPath)
    requires i <= |bytes|
    ensures Locate(bytes, i, section).None? <==> Bindings(bytes[i..], section).None?
    ensures Locate(bytes, i, section).Some? ==>
      Bindings(bytes[i..], section) == Some(Pairs(Locate(bytes, i, section).value))
    decreases |bytes| - i
  {
    if i < |bytes| {
      var next := NextLine(bytes, i);
      BindingsAtLine(bytes, i, section);
      match Classify(bytes[i..next]) {
        case Bad =>
        case Blank => LocateGivesBindings(bytes, next, section);
        case Header(path) => LocateGivesBindings(bytes, next, path);
        case Assign(_, _, _, _) =>
          LocateGivesBindings(bytes, next, section);
      }
    } else {
      assert bytes[i..] == [];
    }
  }

  lemma BindingsAtLine(bytes: ByteString, i: nat, section: KeyPath)
    requires i < |bytes|
    ensures Bindings(bytes[i..], section)
         == LineThen(Classify(bytes[i..NextLine(bytes, i)]), bytes[NextLine(bytes, i)..], section)
  {
    hide Classify;
    var next := NextLine(bytes, i);
    Scanner.NextLineOfSuffix(bytes, i);
    assert bytes[i..][..next - i] == bytes[i..next];
    DropAgain(bytes, i, next - i);
  }

  /** Bindings of a line followed by more text. */
  function LineThen(kind: LineKind, rest: ByteString, section: KeyPath): Option<seq<Binding>> {
    match kind
    case Bad => None
    case Blank => Bindings(rest, section)
    case Header(path) => Bindings(rest, path)
    case Assign(key, value, _, _) =>
      match Bindings(rest, section)
      case None => None
      case Some(more) => Some([(section + [key], value)] + more)
  }

  // ---------------------------------------------------------------------------
  // One line in front of a text

  /** A single terminated line. */
  predicate IsLine(line: ByteString) {
    line != [] && line[|line| - 1] == NEWLINE && NextLine(line, 0) == |line|
  }

  lemma OneLine(line: ByteString)
    requires line != [] && line[|line| - 1] == NEWLINE
    requires forall i :: 0 <= i < |line| - 1 ==> line[i] != NEWLINE
    ensures IsLine(line)
  {
    Scanner.FindUnique(line, NEWLINE, 0, |line| - 1);
  }

  lemma BindingsOfLine(line: ByteString, rest: ByteString, section: KeyPath)
    requires IsLine(line) || (line != [] && NextLine(line, 0) == |line| && rest == [])
    ensures Bindings(line + rest, section) == LineThen(Classify(line), rest, section)
  {
    Scanner.NextLineOfPrefix(line, rest);
    assert (line + rest)[..|line|] == line && (line + rest)[|line|..] == rest;
  }

  /** Lines that hold at most one binding each, and none unless they start with a
      quote: what insertions consist of. */
  predicate InsertLines(s: ByteString)
    decreases |s|
  {
    s == [] ||
    (&& s[NextLine(s, 0) - 1] == NEWLINE
     && (s[0] == QUOTE || s[0] == OPEN_BRACKET || s[0] == RETURN || s[0] == NEWLINE)
     && InsertLines(s[NextLine(s, 0)..]))
  }

  /** Such lines without any header among them. */
  predicate KeyLines(s: ByteString)
    decreases |s|
  {
    s == [] ||
    (s[NextLine(s, 0) - 1] == NEWLINE && s[0] == QUOTE && KeyLines(s[NextLine(s, 0)..]))
  }

  /** How many lines start with a quote. */
  function Slots(s: ByteString): nat
    decreases |s|
  {
    if s == [] then 0 else (if s[0] == QUOTE then 1 else 0) + Slots(s[NextLine(s, 0)..])
  }

  lemma OnlyQuotedLinesBind(line: ByteString)
    requires line != [] && NextLine(line, 0) == |line|
    requires line[0] == OPEN_BRACKET || line[0] == RETURN || line[0] == NEWLINE
    ensures !Classify(line).Assign?
  {
    var s := Strip(line);
    if s != [] {
      assert s[0] == line[0];
      assert CountSpace(s) == 0;
      assert s[0..] == s;
    }
  }

  lemma QuotedLineIsNoHeader(line: ByteString)
    requires line != [] && NextLine(line, 0) == |line| && line[0] == QUOTE
    ensures !Classify(line).Header?
  {
    var s := Strip(line);
    if s != [] {
      assert s[0] == line[0];
      assert CountSpace(s) == 0;
      assert s[0..] == s;
    }
  }

  lemma FirstLineIsLine(s: ByteString)
    requires s != [] && s[NextLine(s, 0) - 1] == NEWLINE
    ensures IsLine(s[..NextLine(s, 0)])
    ensures s == s[..NextLine(s, 0)] + s[NextLine(s, 0)..]
  {
    Scanner.LineOf(s);
  }

  /** Inserted lines before a text add at most one binding per slot, and put the
      rest under some section; under the same one when there is no header. */
  lemma {:induction false} InsertedLinesBindLittle(s: ByteString, rest: ByteString, section: KeyPath)
    returns (later: KeyPath, front: seq<Binding>, back: seq<Binding>)
    requires InsertLines(s) && Bindings(s + rest, section).Some?
    ensures Bindings(rest, later) == Some(back)
    ensures Bindings(s + rest, section) == Some(front + back)
    ensures |front| <= Slots(s)
    ensures KeyLines(s) ==> later == section
    decreases |s|
  {
    if s == [] {
      assert s + rest == rest;
      later, front, back := section, [], Bindings(rest, section).value;
      assert front + back == back;
    } else {
      var n := NextLine(s, 0);
      var line, more := s[..n], s[n..];
      FirstLineIsLine(s);
      Associative(line, more, rest);
      BindingsOfLine(line, more + rest, section);
      if s[0] == QUOTE {
        QuotedLineIsNoHeader(line);
      } else {
        OnlyQuotedLinesBind(line);
      }
      match Classify(line) {
        case Header(path) =>
          later, front, back := InsertedLinesBindLittle(more, rest, path);
        case Assign(key, value, _, _) =>
          later, front, back := InsertedLinesBindLittle(more, rest, section);
          Associative([(section + [key], value)], front, back);
          front := [(section + [key], value)] + front;
        case Blank =>
          later, front, back := InsertedLinesBindLittle(more, rest, section);
        case Bad =>
          assert false;
      }
    }
  }

  lemma {:induction false} InsertLinesJoin(a: ByteString, b: ByteString)
    requires InsertLines(a)
    ensures InsertLines(a + b) <==> InsertLines(b)
    ensures KeyLines(a) ==> (KeyLines(a + b) <==> KeyLines(b))
    ensures Slots(a + b) == Slots(a) + Slots(b)
    decreases |a|
  {
    if a == [] {
      assert a + b == b;
    } else {
      var n := NextLine(a, 0);
      FirstLineIsLine(a);
      Scanner.NextLineOfPrefix(a[..n], a[n..] + b);
      assert a + b == a[..n] + (a[n..] + b);
      assert (a + b)[n..] == a[n..] + b;
      InsertLinesJoin(a[n..], b);
    }
  }

  lemma {:induction false} KeyLinesAreInsertLines(s: ByteString)
    requires KeyLines(s)
    ensures InsertLines(s)
    decreases |s|
  {
    if s != [] {
      KeyLinesAreInsertLines(s[NextLine(s, 0)..]);
    }
  }

  // ---------------------------------------------------------------------------
  // Editing one line

  /** Terminating an unterminated good line does not change what it is. */
  lemma TerminatedLineIsSame(line: ByteString, newline: ByteString)
    requires line != [] && NEWLINE !in line && Classify(line) != Bad
    requires newline == [NEWLINE] || newline == [RETURN, NEWLINE]
    ensures Classify(line + newline) == Classify(line)
  {
    StripUnterminated(line);
    GoodLineHasNoReturn(line);
    StripTerminated(line, newline);
    SameContentSameKind(line, line + newline);
  }

  lemma StripUnterminated(line: ByteString)
    requires NEWLINE !in line
    ensures Strip(line) == line
  {
    if line != [] {
      assert line[|line| - 1] in line;
    }
  }

  lemma StripTerminated(line: ByteString, newline: ByteString)
    requires RETURN !in line
    requires newline == [NEWLINE] || newline == [RETURN, NEWLINE]
    ensures Strip(line + newline) == line
  {
    if line != [] {
      assert line[|line| - 1] in line;
    }
  }

  lemma GoodLineHasNoReturn(line: ByteString)
    requires Classify(line) != Bad
    ensures RETURN !in Strip(line)
  {}

  lemma SameContentSameKind(a: ByteString, b: ByteString)
    requires Strip(a) == Strip(b)
    ensures Classify(a) == Classify(b)
  {}

  lemma {:induction false} CountSpaceUnique(s: ByteString, n: nat)
    requires n <= |s| && forall i :: 0 <= i < n ==> IsSpaceOrTab(s[i])
    requires n < |s| ==> !IsSpaceOrTab(s[n])
    ensures CountSpace(s) == n
  {
    if n > 0 {
      CountSpaceUnique(s[1..], n - 1);
    }
  }

  /** An assignment line starts with space and then a byte that opens no header. */
  lemma AssignHead(line: ByteString)
    requires Classify(line).Assign?
    ensures CountSpace(Strip(line)) < Classify(line).begin
    ensures Strip(line)[CountSpace(Strip(line))] != OPEN_BRACKET
  {}

  /** A line that begins like an assignment up to its value is no header. */
  lemma SameHeadIsNoHeader(line: ByteString, other: ByteString)
    requires Classify(line).Assign?
    requires Classify(line).begin <= |Strip(other)|
    requires other[..Classify(line).begin] == line[..Classify(line).begin]
    ensures !Classify(other).Header?
  {
    var begin := Classify(line).begin;
    var s, o := Strip(line), Strip(other);
    var w := CountSpace(s);
    AssignHead(line);
    assert forall i :: 0 <= i < begin ==> o[i] == other[..begin][i] == line[..begin][i] == s[i];
    CountSpaceUnique(o, w);
    assert o[w..][0] == o[w];
  }

  lemma StripKeepsFront(front: ByteString, back: ByteString)
    requires back != []
    requires NEWLINE !in back || |back| >= 2
    ensures |Strip(front + back)| >= |front|
  {
    var all := front + back;
    if NEWLINE !in back {
      assert all[|all| - 1] == back[|back| - 1];
      assert back[|back| - 1] in back;
    }
  }

  /** Replacing the value leaves a line that is not a header. */
  lemma SetValueLine(line: ByteString, text: ByteString, ending: ByteString)
    requires Classify(line).Assign? && text != [] && NEWLINE !in text
    requires ending == [] || ending == [NEWLINE] || ending == [RETURN, NEWLINE]
    requires NEWLINE in line ==> line[|line| - 1] == NEWLINE
    ensures var kind := Classify(line);
      !Classify(line[..kind.begin] + text + line[kind.end..] + ending).Header?
  {
    hide Classify;
    var Assign(_, _, begin, end) := Classify(line);
    var front, back := line[..begin], text + line[end..] + ending;
    var other := line[..begin] + text + line[end..] + ending;
    assert other == front + back;
    if NEWLINE in back {
      assert |line[end..] + ending| >= 1 by {
        var i :| 0 <= i < |back| && back[i] == NEWLINE;
        if i < |text| {
          assert text[i] in text;
        }
      }
    }
    StripKeepsFront(front, back);
    assert other[..begin] == front;
    SameHeadIsNoHeader(line, other);
  }

  lemma TrailFromTrail(s: ByteString)
    requires IsTrail(s)
    ensures IsTrail(s[CountSpace(s)..])
  {
    var t := s[CountSpace(s)..];
    CountSpaceUnique(t, 0);
    assert t[0..] == t;
  }

  lemma AssignTailOf(t: ByteString)
    requires ClassifyAssign(t).Assign?
    ensures IsTrail(t[ClassifyAssign(t).end..])
  {}

  lemma AssignTail(line: ByteString)
    requires Classify(line).Assign?
    ensures IsTrail(Strip(line)[Classify(line).end..]) && RETURN !in Strip(line)
  {
    hide ClassifyAssign, ClassifyHeader;
    var s := Strip(line);
    var w := CountSpace(s);
    AssignTailOf(s[w..]);
    DropAgain(s, w, Classify(line).end - w);
  }

  lemma TrailContentIsBlank(line: ByteString)
    requires IsTrail(Strip(line)) && RETURN !in Strip(line)
    ensures Classify(line) == Blank
  {
    TrailFromTrail(Strip(line));
  }

  /** Removing an assignment up to its value leaves a blank line or a comment. */
  lemma RemovedLineIsBlank(line: ByteString, ending: ByteString)
    requires Classify(line).Assign?
    requires ending == [] || (NEWLINE !in line && (ending == [NEWLINE] || ending == [RETURN, NEWLINE]))
    ensures Classify(line[Classify(line).end..] + ending) == Blank
  {
    var end := Classify(line).end;
    var s := Strip(line);
    AssignTail(line);
    RestOfContent(line, end);
    TrailHasNoNewline(s[end..]);
    StripRest(line, s[end..], ending);
    TrailContentIsBlank(line[end..] + ending);
  }

  lemma RestOfContent(line: ByteString, end: nat)
    requires end <= |Strip(line)| && RETURN !in Strip(line)
    ensures line[end..] == Strip(line)[end..] + line[|Strip(line)|..]
    ensures RETURN !in Strip(line)[end..]
  {
    var s := Strip(line);
    assert line == s + line[|s|..];
    forall i | 0 <= i < |s| - end ensures s[end..][i] != RETURN {
      assert s[end..][i] == s[end + i] && s[end + i] in s;
    }
  }

  lemma TrailHasNoNewline(s: ByteString)
    requires IsTrail(s)
    ensures NEWLINE !in s
  {
    var w := CountSpace(s);
    var rest := s[w..];
    forall i | 0 <= i < |s| ensures s[i] != NEWLINE {
      if i >= w {
        assert s[i] == rest[i - w];
      }
    }
  }

  lemma StripRest(line: ByteString, rest: ByteString, ending: ByteString)
    requires |rest| <= |Strip(line)| && rest == Strip(line)[|Strip(line)| - |rest|..]
    requires RETURN !in rest && (NEWLINE !in line || ending == [])
    requires ending == [] || ending == [NEWLINE] || ending == [RETURN, NEWLINE]
    requires NEWLINE !in rest
    ensures Strip(rest + line[|Strip(line)|..] + ending) == rest
  {
    var terminator := line[|Strip(line)|..];
    if NEWLINE !in line {
      StripUnterminated(line);
      assert rest + terminator + ending == rest + ending;
      if ending == [] {
        StripUnterminated(rest);
      } else {
        StripTerminated(rest, ending);
      }
    } else {
      assert rest + terminator + ending == rest + terminator;
      if terminator == [] {
        StripUnterminated(rest);
      } else {
        StripTerminated(rest, terminator);
      }
    }
  }
}
