/** The two lexical scanners of `src/document.cpp`: `assignment` decides whether
    a value is the right-hand side of a plain assignment on its line, and
    `retainedComments` keeps the comments of a value that is being removed. */
module Scanner {
  import opened Bytes
  import opened Splice

  // ---------------------------------------------------------------------------
  // assignment

  /** Start of the line holding position `i`. */
  function LineStartAt(bytes: ByteString, i: nat): (r: nat)
    requires i <= |bytes|
    ensures r <= i && LineStart(bytes, r)
    ensures forall j :: r <= j < i ==> bytes[j] != NEWLINE
  {
    if LineStart(bytes, i) then i else LineStartAt(bytes, i - 1)
  }

  predicate IsQuote(b: Byte) {
    b == QUOTE || b == APOSTROPHE
  }

  /** Scanner variables: the open quote, 0 for none, and a pending escape. */
  datatype KeyState = KeyState(quote: Byte, escape: bool)

  function KeyStep(state: KeyState, b: Byte): KeyState {
    if state.quote != 0 then
      if state.escape then KeyState(state.quote, false)
      else if state.quote == QUOTE && b == BACKSLASH then KeyState(state.quote, true)
      else if b == state.quote then KeyState(0, false)
      else state
    else if IsQuote(b) then KeyState(b, false)
    else state
  }

  function KeyStateAt(text: ByteString, n: nat): KeyState
    requires n <= |text|
  {
    if n == 0 then KeyState(0, false) else KeyStep(KeyStateAt(text, n - 1), text[n - 1])
  }

  /** The byte at `i` is outside every quoted key part. */
  predicate Unquoted(text: ByteString, i: nat)
    requires i < |text|
  {
    KeyStateAt(text, i).quote == 0
  }

  predicate EndsKey(b: Byte) {
    b == OPEN_BRACE || b == OPEN_BRACKET || b == COMMA || b == HASH
  }

  ghost predicate UnquotedEquals(text: ByteString, i: nat) {
    i < |text| && Unquoted(text, i) && text[i] == EQUALS
  }

  /** Exactly one unquoted `=` and no unquoted bracket, comma or comment. */
  ghost predicate OnlyAssignmentKey(text: ByteString) {
    && (forall i :: 0 <= i < |text| && Unquoted(text, i) ==> !EndsKey(text[i]))
    && (exists e: nat :: UnquotedEquals(text, e) && forall i: nat :: UnquotedEquals(text, i) ==> i == e)
  }

  /** The scan of the first `n` bytes: rejected, or the `=` seen so far. */
  function KeyScan(text: ByteString, n: nat): Option<Option<nat>>
    requires n <= |text|
  {
    if n == 0 then Some(None)
    else
      match KeyScan(text, n - 1)
      case None => None
      case Some(equal) =>
        if !Unquoted(text, n - 1) then Some(equal)
        else if text[n - 1] == EQUALS then (if equal.Some? then None else Some(Some(n - 1)))
        else if EndsKey(text[n - 1]) then None
        else Some(equal)
  }

  function AssignmentOf(bytes: ByteString, value: Span): Option<Span>
    requires value.begin <= |bytes|
  {
    var line := LineStartAt(bytes, value.begin);
    var text := bytes[line..value.begin];
    match KeyScan(text, |text|)
    case Some(Some(_)) => Some(Span(line, value.end))
    case _ => None
  }

  lemma {:induction false} RejectionIsFinal(text: ByteString, n: nat, m: nat)
    requires n <= m <= |text| && KeyScan(text, n).None?
    ensures KeyScan(text, m).None?
    decreases m - n
  {
    if n < m {
      RejectionIsFinal(text, n, m - 1);
    }
  }

  lemma {:induction false} AcceptedKeyBytes(text: ByteString, n: nat, j: nat)
    requires j < n <= |text| && KeyScan(text, n).Some? && Unquoted(text, j)
    ensures !EndsKey(text[j])
    ensures text[j] == EQUALS ==> KeyScan(text, n).value == Some(j)
  {
    if j < n - 1 {
      AcceptedKeyBytes(text, n - 1, j);
    }
  }

  lemma {:induction false} AcceptedEquals(text: ByteString, n: nat)
    requires n <= |text| && KeyScan(text, n).Some? && KeyScan(text, n).value.Some?
    ensures KeyScan(text, n).value.value < n && UnquotedEquals(text, KeyScan(text, n).value.value)
  {
    if n > 0 && KeyScan(text, n - 1).value == KeyScan(text, n).value {
      AcceptedEquals(text, n - 1);
    }
  }

  lemma {:induction false} RejectedMeaning(text: ByteString, n: nat)
    requires n <= |text| && KeyScan(text, n).None?
    ensures !OnlyAssignmentKey(text)
  {
    if KeyScan(text, n - 1).None? {
      RejectedMeaning(text, n - 1);
    } else if text[n - 1] == EQUALS {
      AcceptedEquals(text, n - 1);
      assert UnquotedEquals(text, n - 1);
    } else {
      assert Unquoted(text, n - 1) && EndsKey(text[n - 1]);
    }
  }

  lemma AcceptedMeaning(text: ByteString)
    requires KeyScan(text, |text|).Some?
    ensures OnlyAssignmentKey(text) <==> KeyScan(text, |text|).value.Some?
  {
    var equal := KeyScan(text, |text|).value;
    forall j | 0 <= j < |text| && Unquoted(text, j) ensures !EndsKey(text[j]) {
      AcceptedKeyBytes(text, |text|, j);
    }
    forall j: nat | UnquotedEquals(text, j) ensures equal == Some(j) {
      AcceptedKeyBytes(text, |text|, j);
    }
    if equal.Some? {
      AcceptedEquals(text, |text|);
    }
  }

  /** The scanner finds an assignment exactly when the text before the value on
      its line has one unquoted `=` and nothing that could end a key. */
  lemma AssignmentMeaning(bytes: ByteString, value: Span)
    requires value.begin <= |bytes|
    ensures var line := LineStartAt(bytes, value.begin);
      AssignmentOf(bytes, value)
      == if OnlyAssignmentKey(bytes[line..value.begin]) then Some(Span(line, value.end)) else None
  {
    var text := bytes[LineStartAt(bytes, value.begin)..value.begin];
    if KeyScan(text, |text|).None? {
      RejectedMeaning(text, |text|);
    } else {
      AcceptedMeaning(text);
    }
  }

  /** A value can be removed with its line only when nothing but one assignment
      key precedes it there. */
  method Assignment(bytes: ByteString, value: Span) returns (r: Option<Span>)
    requires value.begin <= |bytes|
    ensures r == AssignmentOf(bytes, value)
  {
    var line := LineStartAt(bytes, value.begin);
    ghost var text := bytes[line..value.begin];
    var quote: Byte := 0;
    var escape := false;
    var equal: Option<nat> := None;
    var i := line;
    while i < value.begin
      invariant line <= i <= value.begin
      invariant KeyStateAt(text, i - line) == KeyState(quote, escape)
      invariant quote == 0 ==> !escape
      invariant equal.Some? ==> line <= equal.value
      invariant KeyScan(text, i - line) == Some(if equal.Some? then Some(equal.value - line) else None)
    {
      var character := bytes[i];
      assert text[i - line] == character;
      if quote != 0 {
        if escape {
          escape := false;
        } else if quote == QUOTE && character == BACKSLASH {
          escape := true;
        } else if character == quote {
          quote := 0;
        }
      } else if IsQuote(character) {
        quote := character;
      } else if character == EQUALS {
        if equal.Some? {
          RejectionIsFinal(text, i + 1 - line, |text|);
          return None;
        }
        equal := Some(i);
      } else if EndsKey(character) {
        RejectionIsFinal(text, i + 1 - line, |text|);
        return None;
      }
      i := i + 1;
    }
    if equal.None? {
      return None;
    }
    return Some(Span(line, value.end));
  }

  // ---------------------------------------------------------------------------
  // retainedComments

  datatype Mode = Outside | Inside(quote: Byte, multiline: bool)

  predicate Triple(s: ByteString, quote: Byte) {
    |s| >= 3 && s[0] == quote && s[1] == quote && s[2] == quote
  }

  /** The comments found in `s` when the scanner is in `mode`. */
  function Scan(s: ByteString, mode: Mode): ByteString
    decreases |s|
  {
    if s == [] then []
    else
      match mode
      case Inside(quote, multiline) =>
        if quote == QUOTE && s[0] == BACKSLASH then Scan(s[if |s| < 2 then |s| else 2..], mode)
        else if s[0] == quote && (!multiline || Triple(s, quote)) then Scan(s[if multiline then 3 else 1..], Outside)
        else Scan(s[1..], mode)
      case Outside =>
        if IsQuote(s[0]) then
          var multiline := Triple(s, s[0]);
          Scan(s[if multiline then 3 else 1..], Inside(s[0], multiline))
        else if s[0] == HASH then s[..NextLine(s, 0)] + Scan(s[NextLine(s, 0)..], Outside)
        else Scan(s[1..], Outside)
  }

  function RetainedOf(value: ByteString): ByteString {
    Scan(value, Outside)
  }

  /** The comments from position `i` on. */
  function ScanFrom(value: ByteString, i: nat, mode: Mode): ByteString
    requires i <= |value|
  {
    Scan(value[i..], mode)
  }

  predicate TripleAt(value: ByteString, i: nat, quote: Byte) {
    i + 3 <= |value| && value[i] == quote && value[i + 1] == quote && value[i + 2] == quote
  }

  lemma ScanFromStep(value: ByteString, i: nat, mode: Mode)
    requires i < |value|
    ensures mode.Inside? ==>
      ScanFrom(value, i, mode) ==
        if mode.quote == QUOTE && value[i] == BACKSLASH then
          ScanFrom(value, if |value| - i < 2 then |value| else i + 2, mode)
        else if value[i] == mode.quote && (!mode.multiline || TripleAt(value, i, mode.quote)) then
          ScanFrom(value, i + if mode.multiline then 3 else 1, Outside)
        else ScanFrom(value, i + 1, mode)
    ensures mode.Outside? ==>
      ScanFrom(value, i, mode) ==
        if IsQuote(value[i]) then
          ScanFrom(value, i + if TripleAt(value, i, value[i]) then 3 else 1,
                   Inside(value[i], TripleAt(value, i, value[i])))
        else if value[i] == HASH then
          value[i..NextLine(value, i)] + ScanFrom(value, NextLine(value, i), Outside)
        else ScanFrom(value, i + 1, Outside)
  {
    var rest := value[i..];
    assert forall q :: Triple(rest, q) <==> TripleAt(value, i, q);
    NextLineOfSuffix(value, i);
    assert rest[..NextLine(rest, 0)] == value[i..NextLine(value, i)];
    forall step | 0 <= step <= |rest| ensures rest[step..] == value[i + step..] {}
  }

  method RetainedComments(value: ByteString) returns (result: ByteString)
    ensures result == RetainedOf(value)
  {
    result := [];
    var quote: Byte := 0;
    var multiline := false;
    var i := 0;
    assert value[0..] == value;
    while i < |value|
      invariant 0 <= i <= |value|
      invariant quote == 0 || IsQuote(quote)
      invariant RetainedOf(value)
             == result + ScanFrom(value, i, if quote == 0 then Outside else Inside(quote, multiline))
    {
      var character := value[i];
      ScanFromStep(value, i, if quote == 0 then Outside else Inside(quote, multiline));
      if quote != 0 {
        if quote == QUOTE && character == BACKSLASH {
          i := i + if |value| - i < 2 then |value| - i else 2;
        } else if character == quote && (!multiline || TripleAt(value, i, quote)) {
          i := i + if multiline then 3 else 1;
          quote := 0;
        } else {
          i := i + 1;
        }
      } else if IsQuote(character) {
        quote := character;
        multiline := TripleAt(value, i, quote);
        i := i + if multiline then 3 else 1;
      } else if character == HASH {
        var next := NextLine(value, i);
        Associative(result, value[i..next], ScanFrom(value, next, Outside));
        result := result + value[i..next];
        i := next;
      } else {
        i := i + 1;
      }
    }
  }

  lemma {:induction false} FindInSuffix(s: ByteString, c: Byte, i: nat, j: nat)
    requires i + j <= |s|
    ensures Find(s[i..], c, j) == Find(s, c, i + j) - i
    decreases |s| - i - j
  {
    if i + j < |s| && s[i + j] != c {
      FindInSuffix(s, c, i, j + 1);
    }
  }

  lemma NextLineOfSuffix(s: ByteString, i: nat)
    requires i <= |s|
    ensures NextLine(s[i..], 0) == NextLine(s, i) - i
  {
    FindInSuffix(s, NEWLINE, i, 0);
  }

  // ---------------------------------------------------------------------------
  // What the comment scanner returns for every input

  /** A sequence of lines that all start with `#`; only the last may be unterminated. */
  predicate CommentLines(s: ByteString)
    decreases |s|
  {
    s == [] || (s[0] == HASH && CommentLines(s[NextLine(s, 0)..]))
  }

  predicate Subsequence(a: ByteString, b: ByteString) {
    a == [] || (b != [] && ((a[0] == b[0] && Subsequence(a[1..], b[1..])) || Subsequence(a, b[1..])))
  }

  lemma {:induction false} SubsequenceWeakens(a: ByteString, b: ByteString, skip: nat)
    requires skip <= |b| && Subsequence(a, b[skip..])
    ensures Subsequence(a, b)
    decreases |b|
  {
    if skip > 0 && a != [] {
      assert b[1..][skip - 1..] == b[skip..];
      SubsequenceWeakens(a, b[1..], skip - 1);
    } else {
      assert b[0..] == b;
    }
  }

  lemma {:induction false} SubsequencePrepends(front: ByteString, a: ByteString, b: ByteString)
    requires Subsequence(a, b)
    ensures Subsequence(front + a, front + b)
  {
    if front == [] {
      assert front + a == a && front + b == b;
    } else {
      SubsequencePrepends(front[1..], a, b);
      assert (front + a)[1..] == front[1..] + a;
      assert (front + b)[1..] == front[1..] + b;
    }
  }

  lemma {:induction false} ScanIsSubsequence(s: ByteString, mode: Mode)
    ensures Subsequence(Scan(s, mode), s)
    decreases |s|
  {
    if s != [] {
      match mode {
        case Inside(quote, multiline) =>
          if quote == QUOTE && s[0] == BACKSLASH {
            var n := if |s| < 2 then |s| else 2;
            ScanIsSubsequence(s[n..], mode);
            SubsequenceWeakens(Scan(s, mode), s, n);
          } else if s[0] == quote && (!multiline || Triple(s, quote)) {
            var n := if multiline then 3 else 1;
            ScanIsSubsequence(s[n..], Outside);
            SubsequenceWeakens(Scan(s, mode), s, n);
          } else {
            ScanIsSubsequence(s[1..], mode);
            SubsequenceWeakens(Scan(s, mode), s, 1);
          }
        case Outside =>
          if IsQuote(s[0]) {
            var multiline := Triple(s, s[0]);
            var n := if multiline then 3 else 1;
            ScanIsSubsequence(s[n..], Inside(s[0], multiline));
            SubsequenceWeakens(Scan(s, mode), s, n);
          } else if s[0] == HASH {
            var n := NextLine(s, 0);
            ScanIsSubsequence(s[n..], Outside);
            SubsequencePrepends(s[..n], Scan(s[n..], Outside), s[n..]);
            assert s == s[..n] + s[n..];
          } else {
            ScanIsSubsequence(s[1..], Outside);
            SubsequenceWeakens(Scan(s, mode), s, 1);
          }
      }
    }
  }

  lemma CommentLineFirst(line: ByteString, rest: ByteString)
    requires line != [] && line[0] == HASH && NextLine(line, 0) == |line|
    requires line[|line| - 1] == NEWLINE || rest == []
    ensures NextLine(line + rest, 0) == |line|
    ensures CommentLines(line + rest) <==> CommentLines(rest)
  {
    var all := line + rest;
    NextLineOfPrefix(line, rest);
    assert all[|line|..] == rest;
    assert all[0] == HASH;
  }

  lemma NextLineOfPrefix(line: ByteString, rest: ByteString)
    requires line != [] && NextLine(line, 0) == |line|
    requires line[|line| - 1] == NEWLINE || rest == []
    ensures NextLine(line + rest, 0) == |line|
  {
    if rest == [] {
      assert line + rest == line;
    } else {
      var n := Find(line, NEWLINE, 0);
      assert n == |line| - 1;
      FindUnique(line + rest, NEWLINE, 0, |line| - 1);
    }
  }

  lemma {:induction false} FindUnique(s: ByteString, c: Byte, from: nat, n: nat)
    requires from <= n < |s| && s[n] == c
    requires forall i :: from <= i < n ==> s[i] != c
    ensures Find(s, c, from) == n
    decreases n - from
  {
    if from < n {
      FindUnique(s, c, from + 1, n);
    }
  }

  lemma LineOf(s: ByteString)
    requires s != []
    ensures NextLine(s[..NextLine(s, 0)], 0) == NextLine(s, 0)
    ensures s[NextLine(s, 0) - 1] == NEWLINE || s[NextLine(s, 0)..] == []
  {
    var n := NextLine(s, 0);
    var k := Find(s, NEWLINE, 0);
    if k < |s| {
      FindUnique(s[..n], NEWLINE, 0, k);
    } else {
      assert s[..n] == s;
    }
  }

  lemma {:induction false} ScanGivesCommentLines(s: ByteString, mode: Mode)
    ensures CommentLines(Scan(s, mode))
    decreases |s|
  {
    if s != [] {
      match mode {
        case Inside(quote, multiline) =>
          if quote == QUOTE && s[0] == BACKSLASH {
            ScanGivesCommentLines(s[if |s| < 2 then |s| else 2..], mode);
          } else if s[0] == quote && (!multiline || Triple(s, quote)) {
            ScanGivesCommentLines(s[if multiline then 3 else 1..], Outside);
          } else {
            ScanGivesCommentLines(s[1..], mode);
          }
        case Outside =>
          if IsQuote(s[0]) {
            var multiline := Triple(s, s[0]);
            ScanGivesCommentLines(s[if multiline then 3 else 1..], Inside(s[0], multiline));
          } else if s[0] == HASH {
            var n := NextLine(s, 0);
            ScanGivesCommentLines(s[n..], Outside);
            LineOf(s);
            CommentLineFirst(s[..n], Scan(s[n..], Outside));
          } else {
            ScanGivesCommentLines(s[1..], Outside);
          }
      }
    }
  }

  lemma {:induction false} CommentLinesAreKept(s: ByteString)
    requires CommentLines(s)
    ensures Scan(s, Outside) == s
    decreases |s|
  {
    if s != [] {
      var n := NextLine(s, 0);
      CommentLinesAreKept(s[n..]);
      assert s == s[..n] + s[n..];
    }
  }

  /** For every input, what is kept consists of comment lines taken from the
      value in order, and keeping comments again changes nothing. */
  lemma RetainedIsCommentLines(value: ByteString)
    ensures CommentLines(RetainedOf(value))
    ensures Subsequence(RetainedOf(value), value)
    ensures RetainedOf(RetainedOf(value)) == RetainedOf(value)
  {
    ScanGivesCommentLines(value, Outside);
    ScanIsSubsequence(value, Outside);
    CommentLinesAreKept(RetainedOf(value));
  }

  // ---------------------------------------------------------------------------
  // What it returns for text rendered from tokens

  /** One character of a string body: as written, or after a backslash. */
  datatype Unit = Plain(c: Byte) | Escaped(c: Byte)

  datatype Token =
    | Other(c: Byte)
    | Comment(body: ByteString, terminated: bool)
    | Quoted(quote: Byte, multiline: bool, units: seq<Unit>)

  function RenderUnit(unit: Unit): ByteString {
    match unit
    case Plain(c) => [c]
    case Escaped(c) => [BACKSLASH, c]
  }

  function RenderUnits(units: seq<Unit>): ByteString {
    if units == [] then [] else RenderUnit(units[0]) + RenderUnits(units[1..])
  }

  function Delimiter(quote: Byte, multiline: bool): ByteString {
    if multiline then [quote, quote, quote] else [quote]
  }

  function RenderToken(token: Token): ByteString {
    match token
    case Other(c) => [c]
    case Comment(body, terminated) => [HASH] + body + if terminated then [NEWLINE] else []
    case Quoted(quote, multiline, units) =>
      Delimiter(quote, multiline) + RenderUnits(units) + Delimiter(quote, multiline)
  }

  function Render(tokens: seq<Token>): ByteString {
    if tokens == [] then [] else RenderToken(tokens[0]) + Render(tokens[1..])
  }

  function CommentsOf(tokens: seq<Token>): ByteString {
    if tokens == [] then []
    else if tokens[0].Comment? then RenderToken(tokens[0]) + CommentsOf(tokens[1..])
    else CommentsOf(tokens[1..])
  }

  /** Escapes exist in basic strings only, and only there is a backslash special. */
  predicate UnitOk(quote: Byte, multiline: bool, unit: Unit) {
    match unit
    case Plain(c) => (quote == QUOTE ==> c != BACKSLASH) && (!multiline ==> c != quote)
    case Escaped(_) => quote == QUOTE
  }

  /** A multi-line body holds no three quotes in a row and does not end in one. */
  predicate BodyOk(quote: Byte, multiline: bool, units: seq<Unit>) {
    && (forall i :: 0 <= i < |units| ==> UnitOk(quote, multiline, units[i]))
    && (multiline && units != [] ==> units[|units| - 1] != Plain(quote))
    && (forall i :: 0 <= i && i + 2 < |units| ==>
         !(multiline && units[i] == units[i + 1] == units[i + 2] == Plain(quote)))
  }

  predicate TokensOk(tokens: seq<Token>) {
    tokens != [] ==>
      && TokensOk(tokens[1..])
      && match tokens[0]
       case Other(c) => !IsQuote(c) && c != HASH
       case Comment(body, terminated) => NEWLINE !in body && (!terminated ==> |tokens| == 1)
       case Quoted(quote, multiline, units) =>
         && IsQuote(quote) && BodyOk(quote, multiline, units)
         && (!multiline && units == [] ==> Render(tokens[1..]) == [] || Render(tokens[1..])[0] != quote)
  }

  lemma BodyTail(quote: Byte, multiline: bool, units: seq<Unit>)
    requires units != [] && BodyOk(quote, multiline, units)
    ensures BodyOk(quote, multiline, units[1..])
    ensures UnitOk(quote, multiline, units[0])
  {
    var rest := units[1..];
    forall i | 0 <= i && i + 2 < |rest|
      ensures !(multiline && rest[i] == rest[i + 1] == rest[i + 2] == Plain(quote))
    {
      assert !(multiline && units[i + 1] == units[i + 1 + 1] == units[i + 1 + 2] == Plain(quote));
    }
  }

  /** The first byte of a rendered unit is the quote only for the plain quote. */
  lemma UnitHead(quote: Byte, multiline: bool, unit: Unit)
    requires IsQuote(quote) && UnitOk(quote, multiline, unit)
    ensures RenderUnit(unit)[0] == quote <==> unit == Plain(quote)
  {}

  lemma NoEarlyClose(quote: Byte, units: seq<Unit>, after: ByteString)
    requires IsQuote(quote) && units != [] && BodyOk(quote, true, units)
    requires units[0] == Plain(quote)
    ensures !Triple(RenderUnits(units) + after, quote)
  {
    BodyTail(quote, true, units);
    var s := RenderUnits(units) + after;
    assert |units| >= 2;
    UnitHead(quote, true, units[1]);
    assert RenderUnits(units) == [quote] + RenderUnits(units[1..]);
    assert RenderUnits(units[1..]) == RenderUnit(units[1]) + RenderUnits(units[1..][1..]);
    assert s[1] == RenderUnit(units[1])[0];
    if units[1] == Plain(quote) {
      BodyTail(quote, true, units[1..]);
      assert |units| >= 3 && units[1..][1] == units[2];
      assert RenderUnits(units[1..][1..]) == RenderUnit(units[2]) + RenderUnits(units[1..][1..][1..]);
      UnitHead(quote, true, units[2]);
      assert s[2] == RenderUnit(units[2])[0];
    }
  }

  lemma ScanUnit(quote: Byte, multiline: bool, unit: Unit, rest: ByteString)
    requires IsQuote(quote) && UnitOk(quote, multiline, unit)
    requires unit == Plain(quote) ==> !Triple(RenderUnit(unit) + rest, quote)
    ensures Scan(RenderUnit(unit) + rest, Inside(quote, multiline)) == Scan(rest, Inside(quote, multiline))
  {
    var u := RenderUnit(unit);
    var s := u + rest;
    UnitHead(quote, multiline, unit);
    assert s[|u|..] == rest;
    assert s[0] == u[0];
  }

  /** Inside a string, the scanner runs to the delimiter that ends the body. */
  lemma {:induction false} ScanBody(quote: Byte, multiline: bool, units: seq<Unit>, after: ByteString)
    requires IsQuote(quote) && BodyOk(quote, multiline, units)
    ensures Scan(RenderUnits(units) + Delimiter(quote, multiline) + after, Inside(quote, multiline))
         == Scan(after, Outside)
    decreases |units|
  {
    var s := RenderUnits(units) + Delimiter(quote, multiline) + after;
    if units == [] {
      assert s == Delimiter(quote, multiline) + after;
      assert s[0] == quote && (multiline ==> Triple(s, quote));
      assert s[|Delimiter(quote, multiline)|..] == after;
    } else {
      BodyTail(quote, multiline, units);
      ScanBody(quote, multiline, units[1..], after);
      var u := RenderUnit(units[0]);
      var rest := RenderUnits(units[1..]) + Delimiter(quote, multiline) + after;
      assert s == u + rest;
      if units[0] == Plain(quote) {
        NoEarlyClose(quote, units, Delimiter(quote, multiline) + after);
        assert s == RenderUnits(units) + (Delimiter(quote, multiline) + after);
      }
      ScanUnit(quote, multiline, units[0], rest);
    }
  }

  lemma ScanOpens(quote: Byte, multiline: bool, body: ByteString)
    requires IsQuote(quote)
    requires !multiline ==> !(|body| >= 2 && body[0] == body[1] == quote)
    ensures Scan(Delimiter(quote, multiline) + body, Outside) == Scan(body, Inside(quote, multiline))
  {
    var d := Delimiter(quote, multiline);
    var s := d + body;
    assert s[|d|..] == body;
    assert s[0] == quote;
    if !multiline {
      assert |body| >= 1 ==> s[1] == body[0];
      assert |body| >= 2 ==> s[2] == body[1];
    }
    assert Triple(s, quote) == multiline;
  }

  lemma BodyDoesNotOpenTwice(quote: Byte, units: seq<Unit>, after: ByteString)
    requires IsQuote(quote) && BodyOk(quote, false, units)
    requires units == [] ==> after == [] || after[0] != quote
    ensures var body := RenderUnits(units) + [quote] + after; !(|body| >= 2 && body[0] == body[1] == quote)
  {
    var body := RenderUnits(units) + [quote] + after;
    if units == [] {
      assert body == [quote] + after;
    } else {
      BodyTail(quote, false, units);
      UnitHead(quote, false, units[0]);
      assert body[0] == RenderUnit(units[0])[0];
    }
  }

  lemma ScanQuoted(token: Token, after: ByteString)
    requires token.Quoted? && IsQuote(token.quote) && BodyOk(token.quote, token.multiline, token.units)
    requires !token.multiline && token.units == [] ==> after == [] || after[0] != token.quote
    ensures Scan(RenderToken(token) + after, Outside) == Scan(after, Outside)
  {
    var Quoted(quote, multiline, units) := token;
    var d := Delimiter(quote, multiline);
    var body := RenderUnits(units) + d + after;
    if !multiline {
      BodyDoesNotOpenTwice(quote, units, after);
    }
    ScanOpens(quote, multiline, body);
    ScanBody(quote, multiline, units, after);
    Regroup(d, RenderUnits(units), after);
  }

  lemma Regroup(d: ByteString, units: ByteString, after: ByteString)
    ensures (d + units + d) + after == d + (units + d + after)
  {}

  /** On any rendered token sequence the scanner returns exactly its comments. */
  lemma {:induction false} RetainedAreTheComments(tokens: seq<Token>)
    requires TokensOk(tokens)
    ensures RetainedOf(Render(tokens)) == CommentsOf(tokens)
    decreases |tokens|
  {
    if tokens != [] {
      RetainedAreTheComments(tokens[1..]);
      var after := Render(tokens[1..]);
      var s := Render(tokens);
      match tokens[0] {
        case Other(c) =>
          assert s[1..] == after;
        case Comment(body, terminated) =>
          var line := RenderToken(tokens[0]);
          assert line[0] == HASH && forall i :: 1 <= i < 1 + |body| ==> line[i] == body[i - 1];
          if terminated {
            FindUnique(line, NEWLINE, 0, |body| + 1);
          } else {
            assert after == [];
          }
          NextLineOfPrefix(line, after);
          assert s[..|line|] == line && s[|line|..] == after;
        case Quoted(_, _, _) =>
          ScanQuoted(tokens[0], after);
      }
    }
  }

  lemma {:induction false} NothingInside(rest: ByteString, quote: Byte)
    requires quote !in rest
    ensures Scan(rest, Inside(quote, false)) == []
    decreases |rest|
  {
    if rest != [] {
      NothingInside(rest[1..], quote);
      if |rest| >= 2 {
        NothingInside(rest[2..], quote);
      }
    }
  }

  /** A multi-line string may hold one more of its quotes right before its delimiter. The
      scanner takes the last quote of the four for the start of another string, and up to
      the next such quote no comment is kept. */
  lemma StrayQuoteSwallows(quote: Byte, units: seq<Unit>, rest: ByteString)
    requires IsQuote(quote) && BodyOk(quote, true, units) && quote !in rest
    ensures RetainedOf(RenderToken(Quoted(quote, true, units + [Plain(quote)])) + rest) == []
  {
    hide Scan, RenderUnits, BodyOk, Delimiter;
    var d, body := Delimiter(quote, true), RenderUnits(units);
    RenderedLast(units, Plain(quote));
    var after := [quote] + rest;
    StrayRegroup(quote, body, rest);
    ScanOpens(quote, true, body + d + after);
    ScanBody(quote, true, units, after);
    StrayOpens(quote, rest);
    NothingInside(rest, quote);
  }

  lemma StrayRegroup(quote: Byte, body: ByteString, rest: ByteString)
    ensures var d := Delimiter(quote, true); (d + (body + [quote]) + d) + rest == d + (body + d + ([quote] + rest))
  {}

  lemma StrayOpens(quote: Byte, rest: ByteString)
    requires IsQuote(quote) && quote !in rest
    ensures Scan([quote] + rest, Outside) == Scan(rest, Inside(quote, false))
  {
    var after := [quote] + rest;
    assert after[1..] == rest;
    assert !Triple(after, quote);
  }

  lemma {:induction false} RenderedLast(units: seq<Unit>, last: Unit)
    ensures RenderUnits(units + [last]) == RenderUnits(units) + RenderUnit(last)
  {
    if units == [] {
      assert units + [last] == [last];
      assert RenderUnits([]) == [];
    } else {
      RenderedLast(units[1..], last);
      assert (units + [last])[1..] == units[1..] + [last];
    }
  }

  /** The string `a"` in three quotes each side, and a comment behind it. */
  const STRAY: seq<Token> :=
    [Quoted(QUOTE, true, [Plain(97), Plain(QUOTE)]), Other(SPACE), Comment([SPACE, 99], true)]

  /** So the comment of such a value is lost. */
  lemma CommentIsLost()
    ensures Render(STRAY) == [QUOTE, QUOTE, QUOTE, 97, QUOTE, QUOTE, QUOTE, QUOTE, SPACE, HASH, SPACE, 99, NEWLINE]
    ensures CommentsOf(STRAY) == [HASH, SPACE, 99, NEWLINE] && RetainedOf(Render(STRAY)) == []
  {
    var rest := [SPACE, HASH, SPACE, 99, NEWLINE];
    var tail, last: seq<Token> := STRAY[1..], STRAY[2..];
    assert tail[1..] == last && last[1..] == [] && Render([]) == [] && CommentsOf([]) == [];
    assert RenderToken(STRAY[2]) == [HASH, SPACE, 99, NEWLINE];
    assert Render(last) == CommentsOf(last) == RenderToken(STRAY[2]);
    assert Render(tail) == rest && CommentsOf(tail) == [HASH, SPACE, 99, NEWLINE];
    assert [Plain(97)] + [Plain(QUOTE)] == [Plain(97), Plain(QUOTE)];
    RenderedLast([Plain(97)], Plain(QUOTE));
    assert [Plain(97)][1..] == [];
    assert RenderUnits([Plain(97)]) == [97];
    StrayQuoteSwallows(QUOTE, [Plain(97)], rest);
  }

  // ---------------------------------------------------------------------------
  // The text before a value, rendered from tokens

  /** A key part as it may stand on a line: any other byte, or a single-line string. */
  predicate KeyToken(token: Token) {
    match token
    case Other(c) => !IsQuote(c)
    case Comment(_, _) => false
    case Quoted(quote, multiline, units) => IsQuote(quote) && !multiline && BodyOk(quote, false, units)
  }

  predicate KeyTokens(tokens: seq<Token>) {
    forall i :: 0 <= i < |tokens| ==> KeyToken(tokens[i])
  }

  /** How many equals signs stand outside strings. */
  function EqualsSigns(tokens: seq<Token>): nat {
    if tokens == [] then 0 else (if tokens[0] == Other(EQUALS) then 1 else 0) + EqualsSigns(tokens[1..])
  }

  /** A brace, bracket, comma or hash outside strings. */
  predicate Interrupts(token: Token) {
    token == Other(OPEN_BRACE) || token == Other(OPEN_BRACKET) || token == Other(COMMA) || token == Other(HASH)
  }

  const RESTING := KeyState(0, false)

  /** Inside a string neither the scan nor the quote changes. */
  lemma {:induction false} ScanKeyBody(text: ByteString, n: nat, quote: Byte, units: seq<Unit>)
    requires IsQuote(quote) && BodyOk(quote, false, units)
    requires n + |RenderUnits(units)| <= |text| && text[n..n + |RenderUnits(units)|] == RenderUnits(units)
    requires KeyStateAt(text, n) == KeyState(quote, false)
    ensures KeyStateAt(text, n + |RenderUnits(units)|) == KeyState(quote, false)
    ensures KeyScan(text, n + |RenderUnits(units)|) == KeyScan(text, n)
    decreases |units|
  {
    hide KeyScan, KeyStateAt, BodyOk, UnitOk, RenderUnit;
    if units != [] {
      BodyTail(quote, false, units);
      var u, rest := RenderUnit(units[0]), RenderUnits(units[1..]);
      FrontAndRest(text, n, u, rest);
      UnitInKey(text, n, quote, units[0]);
      ScanKeyBody(text, n + |u|, quote, units[1..]);
    }
  }

  lemma UnitInKey(text: ByteString, n: nat, quote: Byte, unit: Unit)
    requires IsQuote(quote) && UnitOk(quote, false, unit) && n + |RenderUnit(unit)| <= |text|
    requires text[n..n + |RenderUnit(unit)|] == RenderUnit(unit) && KeyStateAt(text, n) == KeyState(quote, false)
    ensures KeyStateAt(text, n + |RenderUnit(unit)|) == KeyState(quote, false)
    ensures KeyScan(text, n + |RenderUnit(unit)|) == KeyScan(text, n)
  {
    var u := text[n..n + |RenderUnit(unit)|];
    assert text[n] == u[0] && (unit.Escaped? ==> text[n + 1] == u[1]);
    assert KeyStateAt(text, n + 1) == KeyStep(KeyStateAt(text, n), text[n]);
    assert KeyScan(text, n + 1) == KeyScan(text, n);
  }

  /** A whole string leaves the scan as it was. */
  lemma ScanKeyString(text: ByteString, n: nat, quote: Byte, units: seq<Unit>)
    requires IsQuote(quote) && BodyOk(quote, false, units)
    requires var s := [quote] + RenderUnits(units) + [quote]; n + |s| <= |text| && text[n..n + |s|] == s
    requires KeyStateAt(text, n) == RESTING
    ensures KeyStateAt(text, n + |RenderUnits(units)| + 2) == RESTING
    ensures KeyScan(text, n + |RenderUnits(units)| + 2) == KeyScan(text, n)
  {
    hide BodyOk, RenderUnits;
    var body, s := RenderUnits(units), text[n..n + |RenderUnits(units)| + 2];
    assert s[0] == text[n] == quote && s[|body| + 1] == text[n + 1 + |body|] == quote;
    assert s[1..1 + |body|] == body == text[n + 1..n + 1 + |body|];
    assert KeyStateAt(text, n + 1) == KeyState(quote, false) && KeyScan(text, n + 1) == KeyScan(text, n);
    ScanKeyBody(text, n + 1, quote, units);
  }

  /** The scan has met `equals` more equals signs, and nothing that stops it if `clean`. */
  predicate Counted(before: Option<Option<nat>>, after: Option<Option<nat>>, equals: nat, clean: bool) {
    if before.None? then after.None?
    else
      var all := equals + if before.value.Some? then 1 else 0;
      && (after.Some? <==> all <= 1 && clean)
      && (after.Some? ==> (after.value.Some? <==> all == 1))
  }

  predicate Uninterrupted(tokens: seq<Token>) {
    forall i :: 0 <= i < |tokens| ==> !Interrupts(tokens[i])
  }

  lemma UninterruptedFirst(tokens: seq<Token>)
    requires tokens != []
    ensures Uninterrupted(tokens) <==> !Interrupts(tokens[0]) && Uninterrupted(tokens[1..])
  {
    if !Interrupts(tokens[0]) && Uninterrupted(tokens[1..]) {
      forall i | 0 <= i < |tokens| ensures !Interrupts(tokens[i]) {
        if i > 0 {
          assert tokens[i] == tokens[1..][i - 1];
        }
      }
    }
  }

  /** Scanning rendered tokens counts the equals signs outside strings, and stops at what
      interrupts a key. */
  lemma {:induction false} ScanKeyTokens(text: ByteString, n: nat, tokens: seq<Token>)
    requires KeyTokens(tokens) && n + |Render(tokens)| <= |text| && text[n..n + |Render(tokens)|] == Render(tokens)
    requires KeyStateAt(text, n) == RESTING
    ensures KeyStateAt(text, n + |Render(tokens)|) == RESTING
    ensures Counted(KeyScan(text, n), KeyScan(text, n + |Render(tokens)|), EqualsSigns(tokens), Uninterrupted(tokens))
    decreases |tokens|
  {
    hide KeyScan, KeyStateAt, Counted, Uninterrupted, KeyToken, RenderToken, Interrupts;
    if tokens == [] {
      NothingCounted(KeyScan(text, n), tokens);
    } else {
      var u, rest := RenderToken(tokens[0]), Render(tokens[1..]);
      assert KeyToken(tokens[0]);
      FrontAndRest(text, n, u, rest);
      OneKeyToken(text, n, tokens[0]);
      ScanKeyTokens(text, n + |u|, tokens[1..]);
      UninterruptedFirst(tokens);
      CountedJoin(KeyScan(text, n), KeyScan(text, n + |u|), KeyScan(text, n + |u| + |rest|),
                  if tokens[0] == Other(EQUALS) then 1 else 0, !Interrupts(tokens[0]),
                  EqualsSigns(tokens[1..]), Uninterrupted(tokens[1..]));
    }
  }

  lemma FrontAndRest(text: ByteString, n: nat, u: ByteString, rest: ByteString)
    requires n + |u| + |rest| <= |text| && text[n..n + |u| + |rest|] == u + rest
    ensures text[n..n + |u|] == u && text[n + |u|..n + |u| + |rest|] == rest
  {
    var all := text[n..n + |u| + |rest|];
    assert all[..|u|] == u && all[|u|..] == rest;
  }

  lemma NothingCounted(scan: Option<Option<nat>>, tokens: seq<Token>)
    requires tokens == []
    ensures Counted(scan, scan, 0, Uninterrupted(tokens))
  {}

  lemma CountedJoin(a: Option<Option<nat>>, b: Option<Option<nat>>, c: Option<Option<nat>>, m: nat, clean: bool,
                    n: nat, clean': bool)
    requires Counted(a, b, m, clean) && Counted(b, c, n, clean')
    ensures Counted(a, c, m + n, clean && clean')
  {}

  lemma OneKeyToken(text: ByteString, n: nat, token: Token)
    requires KeyToken(token) && n + |RenderToken(token)| <= |text| && text[n..n + |RenderToken(token)|] == RenderToken(token)
    requires KeyStateAt(text, n) == RESTING
    ensures KeyStateAt(text, n + |RenderToken(token)|) == RESTING
    ensures Counted(KeyScan(text, n), KeyScan(text, n + |RenderToken(token)|), if token == Other(EQUALS) then 1 else 0,
                    !Interrupts(token))
  {
    match token {
      case Other(c) =>
        assert text[n..n + 1][0] == text[n] == c;
        assert KeyStateAt(text, n + 1) == KeyStep(RESTING, c);
      case Quoted(quote, _, units) =>
        ScanKeyString(text, n, quote, units);
    }
  }

  /** Of a value behind single-line strings and other bytes, the assignment is found
      exactly when those have one equals sign outside strings, and no brace, bracket,
      comma or hash. */
  lemma AssignmentOfTokens(bytes: ByteString, line: nat, value: Span, tokens: seq<Token>)
    requires line <= value.begin <= |bytes| && LineStart(bytes, line) && KeyTokens(tokens)
    requires NEWLINE !in bytes[line..value.begin] && bytes[line..value.begin] == Render(tokens)
    ensures AssignmentOf(bytes, value)
         == if EqualsSigns(tokens) == 1 && Uninterrupted(tokens)
            then Some(Span(line, value.end)) else None
  {
    var text := bytes[line..value.begin];
    assert forall j :: line <= j < value.begin ==> bytes[j] == text[j - line];
    assert LineStartAt(bytes, value.begin) == line;
    assert text[0..0 + |Render(tokens)|] == Render(tokens);
    ScanKeyTokens(text, 0, tokens);
  }
}
