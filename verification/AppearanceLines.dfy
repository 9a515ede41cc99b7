/** The lines of a written appearance, read one by one. */
module AppearanceLines {
  import opened Bytes
  import opened Documents
  import opened Patch
  import opened Fragment
  import opened FragmentLines
  import opened FragmentFrame
  import opened FragmentLiterals
  import opened FragmentReading
  import opened Appearance
  import opened AppearanceMeaning
  import opened AppearanceText
  import FragmentInsertion
  import Quoting
  import Scanner
  import Utf8

  predicate QuotableValue(value: Value) {
    value.Text? ==> Quoting.Quotable(value.text)
  }

  /** What a member's value must be for its line to make sense. */
  ghost predicate Writable(numbers: Numbers, value: Value) {
    && (value.Text? || value.Integer? || value.Float?)
    && (value.Text? ==> Utf8.IsUtf8(value.text))
    && (value.Float? ==> value.double.Number? && value.double in numbers.doubles)
    && (value.Integer? ==> -0x8000_0000_0000_0000 <= value.number < 0x8000_0000_0000_0000)
  }

  // ---------------------------------------------------------------------------
  // One line

  lemma BareKey(key: Key, after: ByteString)
    requires BareName(key) && after != [] && !IsBareKeyByte(after[0])
    ensures LexKey(key + after) == Some((key, |key|))
  {
    var s := key + after;
    CountBareUnique(s, |key|);
    assert s[..|key|] == key;
    assert IsBareKeyByte(s[0]);
  }

  lemma NoBareSpecial(b: Byte)
    requires IsBareKeyByte(b)
    ensures !IsSpaceOrTab(b) && b != NEWLINE && b != RETURN && b != HASH && b != OPEN_BRACKET && !Scanner.IsQuote(b)
    ensures b < 0x80
  {}

  /** `key = lexeme`, up to the value. */
  lemma KeyAndEquals(key: Key, lexeme: ByteString)
    requires BareName(key) && lexeme != [] && !IsSpaceOrTab(lexeme[0])
    ensures var t, n := key + ASSIGN + lexeme, |key|;
      && LexKey(t) == Some((key, n)) && CountSpace(t[n..]) == 1 && t[n + 1] == EQUALS
      && CountSpace(t[n + 2..]) == 1 && t[n + 3..] == lexeme
  {
    hide LexKey;
    var t, n := key + ASSIGN + lexeme, |key|;
    assert t == key + (ASSIGN + lexeme);
    BareKey(key, ASSIGN + lexeme);
    CountSpaceUnique(t[n..], 1);
    CountSpaceUnique(t[n + 2..], 1);
  }

  /** The content of a key line. */
  lemma KeyLineContent(key: Key, lexeme: ByteString)
    requires BareName(key) && NEWLINE !in lexeme && RETURN !in lexeme
    ensures var t := key + ASSIGN + lexeme; var line := t + [NEWLINE];
      && IsLine(line) && Strip(line) == t && RETURN !in t && CountSpace(t) == 0 && t[0..] == t
      && t != [] && t[0] != HASH && t[0] != OPEN_BRACKET
  {
    var t := key + ASSIGN + lexeme;
    forall b | b in key ensures b != NEWLINE && b != RETURN {
      NoBareSpecial(b);
    }
    NoBareSpecial(key[0]);
    assert t[0] == key[0];
    assert NEWLINE !in t && RETURN !in t;
    StripTerminated(t, [NEWLINE]);
    TerminatedIsLine(t, [NEWLINE]);
    CountSpaceUnique(t, 0);
  }

  /** What a line with this content is, in terms of its assignment. */
  lemma LineByContent(numbers: Numbers, line: ByteString, t: ByteString)
    requires Strip(line) == t && RETURN !in t && CountSpace(t) == 0 && t[0..] == t
    requires t != [] && t[0] != HASH && t[0] != OPEN_BRACKET
    ensures var kind, number := ClassifyAssign(t), NumberAssign(numbers, t);
      LineOf(numbers, line) == if kind.Assign? then Binds(kind.key, kind.value)
                               else if number.Some? then Binds(number.value.0, number.value.1) else Malformed
  {
    hide ClassifyAssign, NumberAssign;
  }

  lemma BadAssign(t: ByteString)
    requires LexKey(t).Some?
    requires var n := LexKey(t).value.1;
      var equal := n + CountSpace(t[n..]);
      && equal < |t| && t[equal] == EQUALS
      && var begin := equal + 1 + CountSpace(t[equal + 1..]);
      match LexScalar(t[begin..])
      case None => true
      case Some((_, m)) => !IsTrail(t[begin + m..])
    ensures ClassifyAssign(t) == Bad
  {
    hide LexKey, LexScalar, IsTrail;
  }

  lemma {:induction false} CountNumberUnique(s: ByteString)
    requires forall i :: 0 <= i < |s| ==> IsNumberByte(s[i])
    ensures CountNumber(s) == |s|
  {
    if s != [] {
      CountNumberUnique(s[1..]);
    }
  }

  lemma TokenCount(s: ByteString)
    requires IsNumberText(s)
    ensures CountNumber(s) == |s| && s != []
  {
    CountNumberUnique(s);
  }

  lemma NumberToken(numbers: Numbers, t: ByteString, key: Key, d: Double)
    requires LexKey(t) == Some((key, |key|)) && |key| + 3 < |t| && CountSpace(t[|key|..]) == 1 && t[|key| + 1] == EQUALS
    requires CountSpace(t[|key| + 2..]) == 1 && numbers.read(t[|key| + 3..]) == Some(d)
    requires IsNumberText(t[|key| + 3..])
    ensures NumberAssign(numbers, t) == Some((key, Float(d)))
  {
    hide LexKey, CountSpace, CountNumber, IsNumberText, IsTrail;
    var n := |key|;
    var token := t[n + 3..];
    TokenCount(token);
    var equal := n + CountSpace(t[n..]);
    var begin := equal + 1 + CountSpace(t[equal + 1..]);
    var end := begin + CountNumber(t[begin..]);
    assert equal == n + 1 && begin == n + 3 && end == |t|;
    assert t[begin..end] == token && t[end..] == [];
    EmptyTrail();
  }

  lemma {:induction false} NoDigits(s: ByteString, i: nat)
    requires i < |s| && !(48 <= s[i] <= 57)
    ensures Digits(s).None?
  {
    var last := |s| - 1;
    if i < last {
      NoDigits(s[..last], i);
    }
  }

  /** A number text is no integer, and no other scalar either. */
  lemma NumberIsNoScalar(s: ByteString)
    requires IsNumberText(s)
    ensures match LexScalar(s)
      case None => true
      case Some((_, m)) => !IsTrail(s[m..])
  {
    hide IntegerOf, CountBare;
    assert IsNumberByte(s[0]);
    var n := CountBare(s);
    CountBareStops(s);
    if n < |s| {
      assert IsNumberByte(s[n]);
      NotTrail(s[n..]);
    } else {
      assert s[..n] == s;
      NumberIsNoInteger(s);
      NumberIsNoWord(s);
    }
  }

  lemma NotTrail(s: ByteString)
    requires s != [] && IsNumberByte(s[0])
    ensures !IsTrail(s)
  {
    CountSpaceUnique(s, 0);
    assert s[0..] == s;
  }

  lemma NumberIsNoWord(s: ByteString)
    requires IsNumberText(s)
    ensures s != TRUE_TEXT && s != FALSE_TEXT
  {
    assert IsNumberByte(s[0]);
  }

  lemma NumberIsNoInteger(s: ByteString)
    requires IsNumberText(s)
    ensures IntegerOf(s).None?
  {
    var i :| 0 <= i < |s| && (s[i] == DOT || s[i] == 69 || s[i] == 101);
    var digits := if s[0] == 45 then s[1..] else s;
    if digits != [] {
      var k := if s[0] == 45 then i - 1 else i;
      assert digits[k] == s[i];
      NoDigits(digits, k);
    }
  }

  lemma NumberLine(numbers: Numbers, key: Key, d: Double)
    requires BareName(key) && Faithful(numbers) && d in numbers.doubles && d.Number?
    ensures LineOf(numbers, KeyLine(numbers, key, Float(d))) == Binds(key, Float(d))
    ensures IsLine(KeyLine(numbers, key, Float(d)))
  {
    hide LexKey, LexScalar, CountSpace, NumberAssign, ClassifyAssign, LineOf;
    var token := numbers.write(d);
    assert IsNumberText(token) && numbers.read(token) == Some(d);
    TokenBytes(token);
    var t := key + ASSIGN + token;
    KeyAndEquals(key, token);
    KeyLineContent(key, token);
    NumberIsNoScalar(token);
    assert |key| + 1 + 1 + 1 == |key| + 3;
    BadNumber(t, |key|);
    NumberToken(numbers, t, key, d);
    LineByContent(numbers, t + [NEWLINE], t);
  }

  lemma BadNumber(t: ByteString, n: nat)
    requires LexKey(t).Some? && LexKey(t).value.1 == n && n + 3 < |t|
    requires CountSpace(t[n..]) == 1 && t[n + 1] == EQUALS && CountSpace(t[n + 2..]) == 1
    requires match LexScalar(t[n + 3..])
      case None => true
      case Some((_, m)) => !IsTrail(t[n + 3..][m..])
    ensures ClassifyAssign(t) == Bad
  {
    hide LexKey, LexScalar, CountSpace, IsTrail;
    if LexScalar(t[n + 3..]).Some? {
      DropAgain(t, n + 3, LexScalar(t[n + 3..]).value.1);
    }
    BadAssign(t);
  }

  lemma TokenBytes(s: ByteString)
    requires IsNumberText(s)
    ensures s != [] && !IsSpaceOrTab(s[0]) && NEWLINE !in s && RETURN !in s
    ensures forall i :: 0 <= i < |s| ==> s[i] < 0x80
  {
    assert IsNumberByte(s[0]);
    forall b | b in s ensures IsNumberByte(b) {}
  }

  lemma IntegerLine(numbers: Numbers, key: Key, number: int)
    requires BareName(key) && Writable(numbers, Integer(number))
    ensures LineOf(numbers, KeyLine(numbers, key, Integer(number))) == Binds(key, Integer(number))
    ensures IsLine(KeyLine(numbers, key, Integer(number)))
  {
    hide LexKey, LexScalar, CountSpace, ClassifyAssign, LineOf, Print;
    var value := Integer(number);
    var lexeme := Print(value);
    ScalarReadsBack(value);
    PrintIsInline(value);
    PrintHasNoReturn(value);
    var t := key + ASSIGN + lexeme;
    KeyAndEquals(key, lexeme);
    KeyLineContent(key, lexeme);
    WholeScalar(t, key, value);
    LineByContent(numbers, t + [NEWLINE], t);
  }

  /** An assignment whose value goes to the end of the line. */
  lemma WholeScalar(t: ByteString, key: Key, value: Value)
    requires LexKey(t) == Some((key, |key|)) && |key| + 3 < |t|
    requires CountSpace(t[|key|..]) == 1 && t[|key| + 1] == EQUALS && CountSpace(t[|key| + 2..]) == 1
    requires LexScalar(t[|key| + 3..]) == Some((value, |t| - (|key| + 3)))
    ensures ClassifyAssign(t) == Assign(key, value, |key| + 3, |t|)
  {
    hide LexKey, LexScalar, CountSpace, IsTrail, ClassifyAssign;
    var n, size := |key|, |t| - (|key| + 3);
    assert (n + 1) + 1 == n + 2 && (n + 3) + size == |t|;
    assert t[|t|..] == [];
    EmptyTrail();
    AssignOfParts(t, key, n, n + 1, n + 3, value, size);
  }

  lemma {:induction false} QuotedIsInline(text: ByteString)
    ensures NEWLINE !in Quoting.QuoteBytes(text) && RETURN !in Quoting.QuoteBytes(text)
  {
    if text != [] {
      QuotedIsInline(text[1..]);
    }
  }

  /** A quoted string is read whole, or not at all if a control character is left raw. */
  lemma QuotedScalar(text: ByteString)
    ensures LexScalar(Quoting.QuoteOf(text))
         == if Quoting.Quotable(text) then Some((Text(text), |Quoting.QuoteOf(text)|)) else None
  {
    hide Quoting.DecodeBody, Quoting.QuoteBytes, Quoting.Quotable;
    Quoting.DecodeQuoted(text, []);
    assert Quoting.QuoteOf(text)[1..] == Quoting.QuoteBytes(text) + [QUOTE] + [];
  }

  lemma TextLine(numbers: Numbers, key: Key, text: ByteString)
    requires BareName(key)
    ensures LineOf(numbers, KeyLine(numbers, key, Text(text)))
         == if Quoting.Quotable(text) then Binds(key, Text(text)) else Malformed
    ensures IsLine(KeyLine(numbers, key, Text(text)))
  {
    hide LexKey, LexScalar, CountSpace, NumberAssign, ClassifyAssign, LineOf, Quoting.Quotable, Quoting.QuoteBytes;
    var lexeme := Quoting.QuoteOf(text);
    QuotedIsInline(text);
    QuotedScalar(text);
    var t := key + ASSIGN + lexeme;
    KeyAndEquals(key, lexeme);
    KeyLineContent(key, lexeme);
    if Quoting.Quotable(text) {
      WholeScalar(t, key, Text(text));
    } else {
      BadNumber(t, |key|);
      NoNumber(numbers, t, key);
    }
    LineByContent(numbers, t + [NEWLINE], t);
  }

  lemma NoNumber(numbers: Numbers, t: ByteString, key: Key)
    requires LexKey(t) == Some((key, |key|)) && |key| + 3 < |t|
    requires CountSpace(t[|key|..]) == 1 && t[|key| + 1] == EQUALS && CountSpace(t[|key| + 2..]) == 1
    requires t[|key| + 3] == QUOTE
    ensures NumberAssign(numbers, t).None?
  {
    hide LexKey, CountSpace;
    assert t[|key| + 3..][0] == QUOTE;
  }

  /** A member's line binds it, unless quoting leaves a control character raw. */
  lemma OneMemberLine(numbers: Numbers, key: Key, value: Value)
    requires BareName(key) && Faithful(numbers) && Writable(numbers, value)
    ensures LineOf(numbers, KeyLine(numbers, key, value)) == if QuotableValue(value) then Binds(key, value) else Malformed
    ensures IsLine(KeyLine(numbers, key, value))
  {
    hide LineOf, KeyLine, Faithful, BareName;
    match value {
      case Text(text) => TextLine(numbers, key, text);
      case Integer(number) => IntegerLine(numbers, key, number);
      case Float(d) => NumberLine(numbers, key, d);
      case _ =>
    }
  }

  lemma TableHeader(table: Key)
    requires BareName(table)
    ensures IsLine(TableLine(table)) && Classify(TableLine(table)) == Header([table])
  {
    hide LexHeader, ClassifyAssign, IsTrail, Strip, CountSpace, IsLine;
    var s := [OPEN_BRACKET] + table + [CLOSE_BRACKET];
    TableText(table, s);
    BareHeader(table);
    assert s[0..] == s && s[1..] == table + [CLOSE_BRACKET] && s[1 + (|table| + 1)..] == [];
    EmptyTrail();
    BracketIsNoTrail(s);
  }

  lemma TableText(table: Key, s: ByteString)
    requires BareName(table) && s == [OPEN_BRACKET] + table + [CLOSE_BRACKET]
    ensures Strip(TableLine(table)) == s && CountSpace(s) == 0 && RETURN !in s && IsLine(TableLine(table))
  {
    forall b | b in table ensures b != NEWLINE && b != RETURN {
      NoBareSpecial(b);
    }
    assert NEWLINE !in s && RETURN !in s;
    StripTerminated(s, [NEWLINE]);
    TerminatedIsLine(s, [NEWLINE]);
    assert TableLine(table) == s + [NEWLINE];
    CountSpaceUnique(s, 0);
  }

  lemma BareHeader(table: Key)
    requires BareName(table)
    ensures LexHeader(table + [CLOSE_BRACKET]) == Some(([table], |table| + 1))
  {
    hide LexKey;
    var s := table + [CLOSE_BRACKET];
    BareKey(table, [CLOSE_BRACKET]);
    NoBareSpecial(table[0]);
    CountSpaceUnique(s, 0);
    assert s[0..] == s;
    assert LexHeader(s) == LexHeaderAfter(s, table, |table|);
    CountSpaceUnique(s[|table|..], 0);
  }

  lemma FixedLines(numbers: Numbers)
    ensures IsLine(BLANK_LINE) && LineOf(numbers, BLANK_LINE) == Nothing
    ensures IsLine(VERSION_LINE) && LineOf(numbers, VERSION_LINE) == Binds(VERSION, Integer(DOCUMENT_VERSION))
  {
    hide LineOf, KeyLine, Classify;
    FragmentInsertion.NewlineIsBlank();
    BlankIsNothing(numbers);
    MemberOne(numbers);
  }

  lemma BlankIsNothing(numbers: Numbers)
    ensures LineOf(numbers, BLANK_LINE) == Nothing
  {
    hide Classify;
    FragmentInsertion.NewlineIsBlank();
  }

  lemma MemberOne(numbers: Numbers)
    ensures IsLine(VERSION_LINE) && LineOf(numbers, VERSION_LINE) == Binds(VERSION, Integer(DOCUMENT_VERSION))
  {
    hide LineOf;
    assert BareName(VERSION);
    IntegerLine(numbers, VERSION, 1);
    assert Print(Integer(1)) == [49];
    assert KeyLine(numbers, VERSION, Integer(1)) == VERSION_LINE;
  }

  // ---------------------------------------------------------------------------
  // Lines and texts

  ghost predicate AllLines(lines: seq<ByteString>) {
    forall i :: 0 <= i < |lines| ==> IsLine(lines[i])
  }

  /** Splitting a text at its newlines gives back the lines it was made of. */
  lemma {:induction false} SplitConcat(lines: seq<ByteString>)
    requires AllLines(lines)
    ensures SplitLines(Concat(lines)) == lines
  {
    hide NextLine;
    if lines != [] {
      var line, rest := lines[0], Concat(lines[1..]);
      SplitConcat(lines[1..]);
      assert IsLine(line);
      Scanner.NextLineOfPrefix(line, rest);
      assert (line + rest)[..|line|] == line && (line + rest)[|line|..] == rest;
      assert lines == [line] + lines[1..];
    }
  }

  lemma {:induction false} GatherJoin(a: seq<Line>, b: seq<Line>, section: KeyPath)
    ensures Gather(a + b, section) == match Gather(a, section)
      case None => None
      case Some(ra) => Prefixed(ra, Gather(b, ra.section))
  {
    hide Joined;
    if a == [] {
      assert a + b == b;
      if Gather(b, section).Some? {
        NothingRead(section, Gather(b, section).value);
      }
    } else {
      assert (a + b)[1..] == a[1..] + b && (a + b)[0] == a[0];
      var later := if a[0].Opens? then a[0].path else section;
      GatherJoin(a[1..], b, later);
      if a[0].Opens? || a[0].Binds? {
        var first := if a[0].Opens? then Reading([], [a[0].path], a[0].path)
                     else Reading([(section + [a[0].key], a[0].value)], [], section);
        PrefixedTwice(first, Gather(a[1..], later), b);
      }
    }
  }

  lemma PrefixedTwice(first: Reading, rest: Option<Reading>, b: seq<Line>)
    ensures rest.Some? ==> Prefixed(first, rest).Some? && Prefixed(first, rest).value.section == rest.value.section
    ensures rest.Some? ==>
      var more := Gather(b, rest.value.section);
      Prefixed(first, Prefixed(rest.value, more)) == Prefixed(Joined(first, rest.value), more)
  {
    if rest.Some? && Gather(b, rest.value.section).Some? {
      JoinedAgain(first, rest.value, Gather(b, rest.value.section).value);
    }
  }

  // ---------------------------------------------------------------------------
  // How a document is laid out

  lemma {:induction false} MembersHaveNames(numbers: Numbers, table: Key, keys: seq<Key>, values: Values, k: nat)
    requires BareNames(keys) && k < |MemberLines(numbers, table, keys, values)|
    ensures var line := MemberLines(numbers, table, keys, values)[k];
      line != [] && line[0] != OPEN_BRACKET && line[0] != NEWLINE
  {
    var last := |keys| - 1;
    var front := MemberLines(numbers, table, keys[..last], values);
    if k < |front| {
      assert forall i :: 0 <= i < last ==> keys[..last][i] == keys[i];
      MembersHaveNames(numbers, table, keys[..last], values, k);
    } else {
      assert BareName(keys[last]) && IsBareKeyByte(keys[last][0]);
    }
  }

  /** The version comes first; an empty line stands before every table header, and
      nowhere else. */
  lemma {:induction false} TablesStandApart(numbers: Numbers, layout: Layout, values: Values, k: nat)
    requires forall i :: 0 <= i < |layout| ==> BareNames(layout[i].1)
    requires k < |DocumentLines(numbers, layout, values)|
    ensures var lines := DocumentLines(numbers, layout, values);
      && lines[0] == VERSION + [SPACE, EQUALS, SPACE, 49, NEWLINE] && lines[k] != []
      && (lines[k][0] == OPEN_BRACKET ==> k > 0 && lines[k - 1] == [NEWLINE])
      && (lines[k][0] == NEWLINE ==> k + 1 < |lines| && lines[k + 1] != [] && lines[k + 1][0] == OPEN_BRACKET)
  {
    if layout != [] {
      var last := |layout| - 1;
      var front := DocumentLines(numbers, layout[..last], values);
      var members := MemberLines(numbers, layout[last].0, layout[last].1, values);
      assert forall i :: 0 <= i < last ==> layout[..last][i] == layout[i];
      TablesStandApart(numbers, layout[..last], values, if k < |front| then k else 0);
      if k >= |front| + 2 {
        MembersHaveNames(numbers, layout[last].0, layout[last].1, values, k - |front| - 2);
      }
    }
  }

  // ---------------------------------------------------------------------------
  // What a document's lines gather

  function KeyBindings(table: Key, keys: seq<Key>, values: Values): seq<Binding> {
    if keys == [] then []
    else
      var last := |keys| - 1;
      KeyBindings(table, keys[..last], values)
      + if (table, keys[last]) in values then [([table, keys[last]], values[(table, keys[last])])] else []
  }

  function DocumentBindings(layout: Layout, values: Values): seq<Binding> {
    if layout == [] then [([VERSION], Integer(DOCUMENT_VERSION))]
    else
      var last := |layout| - 1;
      DocumentBindings(layout[..last], values) + KeyBindings(layout[last].0, layout[last].1, values)
  }

  function DocumentHeaders(layout: Layout): (headers: seq<KeyPath>)
    ensures |headers| == |layout| && forall i :: 0 <= i < |layout| ==> headers[i] == [layout[i].0]
  {
    seq(|layout|, i requires 0 <= i < |layout| => [layout[i].0])
  }

  predicate QuotableKeys(table: Key, keys: seq<Key>, values: Values) {
    forall i :: 0 <= i < |keys| && (table, keys[i]) in values ==> QuotableValue(values[(table, keys[i])])
  }

  predicate QuotableDocument(layout: Layout, values: Values) {
    forall i :: 0 <= i < |layout| ==> QuotableKeys(layout[i].0, layout[i].1, values)
  }

  ghost predicate WritableValues(numbers: Numbers, values: Values) {
    forall name :: name in values ==> Writable(numbers, values[name])
  }

  lemma LinesReadJoin(numbers: Numbers, a: seq<ByteString>, b: seq<ByteString>)
    ensures LinesRead(numbers, a + b) == LinesRead(numbers, a) + LinesRead(numbers, b)
  {
    hide LineOf;
  }

  /** A single line, gathered. */
  function Alone(line: Line, section: KeyPath): Option<Reading> {
    match line
    case Malformed => None
    case Nothing => Some(Reading([], [], section))
    case Opens(path) => Some(Reading([], [path], path))
    case Binds(key, value) => Some(Reading([(section + [key], value)], [], section))
  }

  lemma OneRead(numbers: Numbers, line: ByteString, section: KeyPath)
    ensures LinesRead(numbers, [line]) == [LineOf(numbers, line)]
    ensures Gather([LineOf(numbers, line)], section) == Alone(LineOf(numbers, line), section)
  {
    hide LineOf, Joined;
    var one, none: seq<Line> := [LineOf(numbers, line)], [];
    assert one[1..] == none;
    var later := if one[0].Opens? then one[0].path else section;
    assert Gather(none, later) == Some(Reading([], [], later));
    if one[0].Opens? || one[0].Binds? {
      NothingRead(later, Alone(one[0], section).value);
    }
  }

  lemma FixedRead(numbers: Numbers, table: Key, section: KeyPath)
    requires LineOf(numbers, BLANK_LINE) == Nothing && LineOf(numbers, TableLine(table)) == Opens([table])
    ensures Gather(LinesRead(numbers, [BLANK_LINE]), section) == Some(Reading([], [], section))
    ensures Gather(LinesRead(numbers, [TableLine(table)]), section) == Some(Reading([], [[table]], [table]))
  {
    hide LineOf, TableLine, Gather, LinesRead;
    OneRead(numbers, BLANK_LINE, section);
    OneRead(numbers, TableLine(table), section);
  }

  lemma NoKeys(numbers: Numbers, table: Key, values: Values)
    ensures MemberLines(numbers, table, [], values) == [] && QuotableKeys(table, [], values) && AllLines([])
    ensures Gather(LinesRead(numbers, []), [table]) == Some(Reading(KeyBindings(table, [], values), [], [table]))
  {
    assert LinesRead(numbers, []) == [];
  }

  lemma {:induction false} MemberLinesGather(numbers: Numbers, table: Key, keys: seq<Key>, values: Values)
    requires Faithful(numbers) && WritableValues(numbers, values) && BareNames(keys)
    ensures AllLines(MemberLines(numbers, table, keys, values))
    ensures Gather(LinesRead(numbers, MemberLines(numbers, table, keys, values)), [table])
         == if QuotableKeys(table, keys, values) then Some(Reading(KeyBindings(table, keys, values), [], [table])) else None
  {
    hide LineOf, KeyLine, Faithful, Writable, QuotableValue, Joined, BareName, QuotableKeys;
    if keys == [] {
      NoKeys(numbers, table, values);
    } else {
      var last := |keys| - 1;
      var front, key := keys[..last], keys[last];
      MemberLinesGather(numbers, table, front, values);
      QuotableOneMore(table, keys, values);
      var lines := MemberLines(numbers, table, front, values);
      if (table, key) in values {
        var value := values[(table, key)];
        var line := KeyLine(numbers, key, value);
        OneMemberLine(numbers, key, value);
        LinesReadJoin(numbers, lines, [line]);
        OneRead(numbers, line, [table]);
        GatherJoin(LinesRead(numbers, lines), LinesRead(numbers, [line]), [table]);
        MoreBindings(KeyBindings(table, front, values), table, key, value);
      } else {
        assert lines + [] == lines;
        assert KeyBindings(table, front, values) + [] == KeyBindings(table, front, values);
      }
    }
  }

  lemma QuotableOneMore(table: Key, keys: seq<Key>, values: Values)
    requires keys != []
    ensures var last := |keys| - 1;
      QuotableKeys(table, keys, values) <==>
        && QuotableKeys(table, keys[..last], values)
        && ((table, keys[last]) in values ==> QuotableValue(values[(table, keys[last])]))
  {
    hide QuotableValue;
  }

  lemma MoreBindings(bindings: seq<Binding>, table: Key, key: Key, value: Value)
    ensures Joined(Reading(bindings, [], [table]), Reading([([table] + [key], value)], [], [table]))
         == Reading(bindings + [([table, key], value)], [], [table])
  {
    assert [table] + [key] == [table, key];
    var none: seq<KeyPath> := [];
    assert none + none == none;
  }

  lemma TableLinesGather(numbers: Numbers, table: Key, keys: seq<Key>, values: Values, section: KeyPath)
    requires Faithful(numbers) && WritableValues(numbers, values) && BareName(table) && BareNames(keys)
    ensures var lines := [BLANK_LINE, TableLine(table)] + MemberLines(numbers, table, keys, values);
      && AllLines(lines)
      && Gather(LinesRead(numbers, lines), section)
         == if QuotableKeys(table, keys, values) then Some(Reading(KeyBindings(table, keys, values), [[table]], [table]))
            else None
  {
    hide *;
    var lines := MemberLines(numbers, table, keys, values);
    FixedLines(numbers);
    TableHeader(table);
    HeaderOpens(numbers, table);
    MemberLinesGather(numbers, table, keys, values);
    var one, two := [BLANK_LINE], [TableLine(table)];
    assert [BLANK_LINE, TableLine(table)] + lines == one + (two + lines);
    LinesReadJoin(numbers, one, two + lines);
    LinesReadJoin(numbers, two, lines);
    FixedRead(numbers, table, section);
    GatherJoin(LinesRead(numbers, two), LinesRead(numbers, lines), section);
    GatherJoin(LinesRead(numbers, one), LinesRead(numbers, two + lines), section);
    OpensTable(table, KeyBindings(table, keys, values), section, Gather(LinesRead(numbers, lines), [table]));
    LinesOfParts(one, two, lines);
  }

  lemma HeaderOpens(numbers: Numbers, table: Key)
    requires Classify(TableLine(table)) == Header([table])
    ensures LineOf(numbers, TableLine(table)) == Opens([table])
  {
    hide Classify, TableLine;
  }

  lemma LinesOfParts(one: seq<ByteString>, two: seq<ByteString>, lines: seq<ByteString>)
    requires |one| == 1 && |two| == 1 && IsLine(one[0]) && IsLine(two[0]) && AllLines(lines)
    ensures AllLines(one + (two + lines))
  {
    hide IsLine;
  }

  lemma OpensTable(table: Key, bindings: seq<Binding>, section: KeyPath, rest: Option<Reading>)
    requires rest.Some? ==> rest.value == Reading(bindings, [], [table])
    ensures var whole := Prefixed(Reading([], [[table]], [table]), rest);
      && (rest.Some? ==> whole == Some(Reading(bindings, [[table]], [table])))
      && (rest.None? ==> whole.None?)
      && Prefixed(Reading([], [], section), whole) == whole
  {
    var none: seq<Binding> := [];
    assert none + bindings == bindings;
    var header: seq<KeyPath> := [[table]];
    assert header + [] == header;
    if rest.Some? {
      NothingRead(section, Prefixed(Reading([], [[table]], [table]), rest).value);
    }
  }

  /** All lines of the document, gathered. */
  lemma {:induction false} DocumentGather(numbers: Numbers, layout: Layout, values: Values) returns (section: KeyPath)
    requires Faithful(numbers) && WritableValues(numbers, values)
    requires forall i :: 0 <= i < |layout| ==> BareName(layout[i].0)
    requires forall i :: 0 <= i < |layout| ==> BareNames(layout[i].1)
    ensures AllLines(DocumentLines(numbers, layout, values))
    ensures Gather(LinesRead(numbers, DocumentLines(numbers, layout, values)), [])
         == if QuotableDocument(layout, values)
            then Some(Reading(DocumentBindings(layout, values), DocumentHeaders(layout), section)) else None
    decreases |layout|
  {
    hide LineOf, MemberLines, TableLine, Faithful, Writable, Joined, BareName, QuotableKeys, KeyBindings;
    FixedLines(numbers);
    if layout == [] {
      section := [];
      OneRead(numbers, VERSION_LINE, []);
      assert DocumentLines(numbers, layout, values) == [VERSION_LINE];
      assert [] + [VERSION] == [VERSION];
      assert DocumentHeaders(layout) == [];
    } else {
      var last := |layout| - 1;
      var front, table, keys := layout[..last], layout[last].0, layout[last].1;
      section := DocumentGather(numbers, front, values);
      TableLinesGather(numbers, table, keys, values, section);
      var lines := DocumentLines(numbers, front, values);
      var more := [BLANK_LINE, TableLine(table)] + MemberLines(numbers, table, keys, values);
      LinesReadJoin(numbers, lines, more);
      GatherJoin(LinesRead(numbers, lines), LinesRead(numbers, more), []);
      QuotableLayout(layout, values);
      assert DocumentHeaders(layout) == DocumentHeaders(front) + [[table]];
      JoinedTable(DocumentBindings(front, values), DocumentHeaders(front), section, KeyBindings(table, keys, values), table);
      MoreLines(lines, more);
      section := [table];
    }
  }

  lemma QuotableLayout(layout: Layout, values: Values)
    requires layout != []
    ensures var last := |layout| - 1;
      QuotableDocument(layout, values) <==>
        QuotableDocument(layout[..last], values) && QuotableKeys(layout[last].0, layout[last].1, values)
  {
    hide QuotableKeys;
  }

  lemma MoreLines(lines: seq<ByteString>, more: seq<ByteString>)
    requires AllLines(lines) && AllLines(more)
    ensures AllLines(lines + more)
  {
    hide IsLine;
  }

  lemma JoinedTable(bindings: seq<Binding>, headers: seq<KeyPath>, section: KeyPath, more: seq<Binding>, table: Key)
    ensures Joined(Reading(bindings, headers, section), Reading(more, [[table]], [table]))
         == Reading(bindings + more, headers + [[table]], [table])
  {}
}
