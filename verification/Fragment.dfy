/** A concrete line-structured fragment of TOML v1.0.0: comments, blank lines,
    `[header]` with bare or quoted dotted keys, and `key = scalar` with booleans,
    64-bit decimal integers and single-line basic and literal strings.

    It instantiates the TOML library that the patch engine takes as a parameter. */
module Fragment {
  import opened Bytes
  import opened Splice
  import opened Documents
  import Quoting
  import Scanner

  // ---------------------------------------------------------------------------
  // Lexemes; each lexer returns a value and the number of bytes it consumed

  predicate IsSpaceOrTab(b: Byte) {
    b == SPACE || b == TAB
  }

  function CountSpace(s: ByteString): (n: nat)
    ensures n <= |s|
    ensures forall i :: 0 <= i < n ==> IsSpaceOrTab(s[i])
    ensures n < |s| ==> !IsSpaceOrTab(s[n])
  {
    if s != [] && IsSpaceOrTab(s[0]) then 1 + CountSpace(s[1..]) else 0
  }

  predicate IsLetterOrDigit(b: Byte) {
    48 <= b <= 57 || 65 <= b <= 90 || 97 <= b <= 122
  }

  /** `A-Z a-z 0-9 _ -`. */
  predicate IsBareKeyByte(b: Byte) {
    IsLetterOrDigit(b) || b == 95 || b == 45
  }

  function CountBare(s: ByteString): (n: nat)
    ensures n <= |s|
    ensures forall i :: 0 <= i < n ==> IsBareKeyByte(s[i])
  {
    if s != [] && IsBareKeyByte(s[0]) then 1 + CountBare(s[1..]) else 0
  }

  /** The rest of a literal string after its opening apostrophe. */
  function LexLiteral(s: ByteString): (r: Option<(ByteString, nat)>)
    ensures r.Some? ==> 1 <= r.value.1 <= |s|
  {
    if s == [] || Quoting.IsControl(s[0]) then None
    else if s[0] == APOSTROPHE then Some(([], 1))
    else
      match LexLiteral(s[1..])
      case None => None
      case Some((rest, n)) => Some(([s[0]] + rest, n + 1))
  }

  function LexQuoted(s: ByteString): (r: Option<(ByteString, nat)>)
    requires s != []
    ensures r.Some? ==> 2 <= r.value.1 <= |s|
  {
    var body := if s[0] == QUOTE then Quoting.DecodeBody(s[1..])
                else if s[0] == APOSTROPHE then LexLiteral(s[1..])
                else None;
    match body
    case None => None
    case Some((bytes, n)) => Some((bytes, n + 1))
  }

  function LexKey(s: ByteString): (r: Option<(Key, nat)>)
    ensures r.Some? ==> 1 <= r.value.1 <= |s|
  {
    if s == [] then None
    else if Scanner.IsQuote(s[0]) then LexQuoted(s)
    else if CountBare(s) == 0 then None
    else Some((s[..CountBare(s)], CountBare(s)))
  }

  /** The path of a header up to and including its closing bracket. */
  function LexHeader(s: ByteString): (r: Option<(KeyPath, nat)>)
    ensures r.Some? ==> r.value.1 <= |s|
    decreases |s|, 1
  {
    var before := CountSpace(s);
    match LexKey(s[before..])
    case None => None
    case Some((key, n)) => LexHeaderAfter(s, key, before + n)
  }

  /** A header's path from the end of its first key on. */
  function LexHeaderAfter(s: ByteString, key: Key, end: nat): (r: Option<(KeyPath, nat)>)
    requires end <= |s|
    ensures r.Some? ==> r.value.1 <= |s|
    decreases |s|, 0
  {
    var stop := end + CountSpace(s[end..]);
    if stop == |s| then None
    else if s[stop] == CLOSE_BRACKET then Some(([key], stop + 1))
    else if s[stop] != DOT then None
    else
      match LexHeader(s[stop + 1..])
      case None => None
      case Some((rest, m)) => Some(([key] + rest, stop + 1 + m))
  }

  function Digits(s: ByteString): Option<nat> {
    if s == [] then Some(0)
    else
      var last := s[|s| - 1];
      match Digits(s[..|s| - 1])
      case Some(n) => if 48 <= last <= 57 then Some(n * 10 + (last - 48) as nat) else None
      case None => None
  }

  /** A decimal integer without leading zeros, in 64-bit range. */
  function IntegerOf(s: ByteString): Option<int> {
    var negative := s != [] && s[0] == 45;
    var digits := if negative then s[1..] else s;
    if digits == [] || (|digits| > 1 && digits[0] == 48) then None
    else
      match Digits(digits)
      case None => None
      case Some(n) =>
        var value: int := if negative then -(n as int) else n as int;
        if -0x8000_0000_0000_0000 <= value < 0x8000_0000_0000_0000 then Some(value) else None
  }

  const TRUE_TEXT: ByteString := [116, 114, 117, 101]
  const FALSE_TEXT: ByteString := [102, 97, 108, 115, 101]

  function LexScalar(s: ByteString): (r: Option<(Value, nat)>)
    ensures r.Some? ==> 1 <= r.value.1 <= |s| && InFragment(r.value.0)
  {
    if s == [] then None
    else if Scanner.IsQuote(s[0]) then
      match LexQuoted(s)
      case None => None
      case Some((bytes, n)) => Some((Text(bytes), n))
    else
      var n := CountBare(s);
      var token := s[..n];
      if token == TRUE_TEXT then Some((Boolean(true), n))
      else if token == FALSE_TEXT then Some((Boolean(false), n))
      else
        match IntegerOf(token)
        case Some(value) => Some((Integer(value), n))
        case None => None
  }

  predicate InFragment(value: Value) {
    value.Boolean? || value.Integer? || value.Text?
  }

  /** Nothing more on the line: space, and perhaps a comment. */
  predicate IsTrail(s: ByteString) {
    var rest := s[CountSpace(s)..];
    rest == [] || (rest[0] == HASH && forall i :: 0 <= i < |rest| ==> !Quoting.IsControl(rest[i]))
  }

  // ---------------------------------------------------------------------------
  // Lines

  datatype LineKind =
    | Blank
    | Header(path: KeyPath)
    | Assign(key: Key, value: Value, begin: nat, end: nat)
    | Bad

  /** The line without its terminator. */
  function Strip(line: ByteString): (r: ByteString)
    ensures r <= line
  {
    var n := |line|;
    if n >= 2 && line[n - 2] == RETURN && line[n - 1] == NEWLINE then line[..n - 2]
    else if n >= 1 && line[n - 1] == NEWLINE then line[..n - 1]
    else line
  }

  function ClassifyAssign(t: ByteString): (r: LineKind)
    ensures r.Assign? || r.Bad?
    ensures r.Assign? ==> 1 <= r.begin < r.end <= |t| && InFragment(r.value)
  {
    match LexKey(t)
    case None => Bad
    case Some((key, n)) =>
      var equal := n + CountSpace(t[n..]);
      if equal == |t| || t[equal] != EQUALS then Bad
      else
        var begin := equal + 1 + CountSpace(t[equal + 1..]);
        match LexScalar(t[begin..])
        case None => Bad
        case Some((value, m)) =>
          if IsTrail(t[begin + m..]) then Assign(key, value, begin, begin + m) else Bad
  }

  function ClassifyHeader(t: ByteString): (r: LineKind)
    requires t != []
    ensures r.Header? || r.Bad?
  {
    match LexHeader(t[1..])
    case None => Bad
    case Some((path, n)) => if IsTrail(t[1 + n..]) then Header(path) else Bad
  }

  /** A carriage return is legal only as part of a line ending. */
  function Classify(line: ByteString): (r: LineKind)
    ensures r.Assign? ==> 1 <= r.begin < r.end <= |Strip(line)| && InFragment(r.value)
  {
    var s := Strip(line);
    var w := CountSpace(s);
    var t := s[w..];
    if RETURN in s then Bad
    else if t == [] || IsTrail(t) then Blank
    else if t[0] == OPEN_BRACKET then ClassifyHeader(t)
    else
      match ClassifyAssign(t)
      case Assign(key, value, begin, end) => Assign(key, value, w + begin, w + end)
      case _ => Bad
  }

  // ---------------------------------------------------------------------------
  // Documents

  /** A binding, the start of its line and the span of its value. */
  datatype Located = Located(key: KeyPath, value: Value, line: nat, span: Span)

  /** The bindings from line start `i` on, under `section`. */
  function Locate(bytes: ByteString, i: nat, section: KeyPath): Option<seq<Located>>
    requires i <= |bytes|
    decreases |bytes| - i
  {
    if i == |bytes| then Some([])
    else
      var next := NextLine(bytes, i);
      match Classify(bytes[i..next])
      case Bad => None
      case Blank => Locate(bytes, next, section)
      case Header(path) => Locate(bytes, next, path)
      case Assign(key, value, begin, end) =>
        match Locate(bytes, next, section)
        case None => None
        case Some(rest) => Some([Located(section + [key], value, i, Span(i + begin, i + end))] + rest)
  }

  function HeadersFrom(bytes: ByteString, i: nat): seq<KeyPath>
    requires i <= |bytes|
    decreases |bytes| - i
  {
    if i == |bytes| then []
    else
      var next := NextLine(bytes, i);
      match Classify(bytes[i..next])
      case Header(path) => [path] + HeadersFrom(bytes, next)
      case _ => HeadersFrom(bytes, next)
  }

  predicate Distinct<T(==)>(s: seq<T>) {
    forall i, j :: 0 <= i < j < |s| ==> s[i] != s[j]
  }

  function KeysOf(located: seq<Located>): (keys: seq<KeyPath>)
    ensures |keys| == |located| && forall i :: 0 <= i < |keys| ==> keys[i] == located[i].key
  {
    seq(|located|, i requires 0 <= i < |located| => located[i].key)
  }

  /** No table is defined twice and no value is also a table. */
  predicate TablesAgree(keys: seq<KeyPath>, headers: seq<KeyPath>) {
    && Distinct(headers)
    && forall i, j :: 0 <= i < |keys| && 0 <= j < |headers| ==> !(keys[i] <= headers[j])
  }

  function EntryOf(bytes: ByteString, located: Located): Entry {
    Entry(located.value, located.span,
          if located.span.begin <= |bytes| then Scanner.AssignmentOf(bytes, located.span) else None)
  }

  function Lookup(located: seq<Located>, key: KeyPath): (r: Located)
    requires exists i :: 0 <= i < |located| && located[i].key == key
    ensures r in located && r.key == key
  {
    if located[0].key == key then located[0] else Lookup(located[1..], key)
  }

  function MapOf(bytes: ByteString, located: seq<Located>): map<KeyPath, Entry> {
    map key | key in KeysOf(located) :: EntryOf(bytes, Lookup(located, key))
  }

  function Parse(bytes: ByteString): Option<map<KeyPath, Entry>> {
    match Locate(bytes, 0, [])
    case None => None
    case Some(located) =>
      if Distinct(KeysOf(located)) && TablesAgree(KeysOf(located), HeadersFrom(bytes, 0))
      then Some(MapOf(bytes, located))
      else None
  }

  // ---------------------------------------------------------------------------
  // Printing

  function HexDigit(n: nat): Byte
    requires n < 16
  {
    if n < 10 then 48 + n else 55 + n
  }

  /** Like `quote`, with the control characters it leaves raw written as `\u00XX`. */
  function EscapeByte(b: Byte): ByteString {
    if Quoting.LeftRaw(b) then [BACKSLASH, 117, 48, 48, HexDigit((b as int) / 16), HexDigit((b as int) % 16)]
    else Quoting.QuoteByte(b)
  }

  function EscapeBytes(s: ByteString): ByteString {
    if s == [] then [] else EscapeByte(s[0]) + EscapeBytes(s[1..])
  }

  function PrintText(s: ByteString): ByteString {
    [QUOTE] + EscapeBytes(s) + [QUOTE]
  }

  function PrintNat(n: nat): (r: ByteString)
    ensures r != [] && forall i :: 0 <= i < |r| ==> 48 <= r[i] <= 57
  {
    var last: Byte := 48 + n % 10;
    if n < 10 then [last] else PrintNat(n / 10) + [last]
  }

  /** Floats are outside the fragment and print as nothing, which no parser accepts. */
  function Print(value: Value): ByteString {
    match value
    case Boolean(truth) => if truth then TRUE_TEXT else FALSE_TEXT
    case Integer(number) => if number < 0 then [45] + PrintNat(-number) else PrintNat(number)
    case Text(text) => PrintText(text)
    case Aggregate(toml) => toml
    case Float(_) => []
  }

  const TOML := Toml(Parse, Print)

  // ---------------------------------------------------------------------------
  // What printing and scanning need to know about lexemes

  lemma {:induction false} EscapedBytesAreInline(s: ByteString)
    ensures NEWLINE !in EscapeBytes(s)
  {
    if s != [] {
      EscapedBytesAreInline(s[1..]);
      var head := EscapeByte(s[0]);
      forall b | b in head ensures b != NEWLINE {
        if Quoting.LeftRaw(s[0]) {
          assert HexDigit((s[0] as int) / 16) >= 48 && HexDigit((s[0] as int) % 16) >= 48;
        }
      }
    }
  }

  /** Fragment values print on one line. */
  lemma PrintIsInline(value: Value)
    requires InFragment(value)
    ensures NEWLINE !in Print(value)
  {
    match value {
      case Text(text) => EscapedBytesAreInline(text);
      case _ =>
    }
  }

  lemma {:induction false} HexDigitsAreDigits(s: ByteString, i: nat)
    requires Quoting.HexNumber(s).Some? && i < |s|
    ensures Quoting.HexValue(s[i]).Some?
  {
    var last := |s| - 1;
    if i < last {
      HexDigitsAreDigits(s[..last], i);
    }
  }

  /** After its first two bytes, an escape sequence is hexadecimal digits. */
  lemma EscapeHoldsNoQuote(s: ByteString)
    requires s != [] && Quoting.DecodeEscape(s).Some?
    ensures Quoting.DecodeEscape(s).value.1 >= 2
    ensures forall i :: 2 <= i < Quoting.DecodeEscape(s).value.1 ==> s[i] != QUOTE && s[i] != BACKSLASH
  {
    var n := Quoting.DecodeEscape(s).value.1;
    forall i | 2 <= i < n ensures s[i] != QUOTE && s[i] != BACKSLASH {
      HexDigitsAreDigits(s[2..n], i - 2);
    }
  }

  lemma {:induction false} ScanBasicBody(s: ByteString)
    requires Quoting.DecodeBody(s).Some?
    ensures Scanner.Scan(s[..Quoting.DecodeBody(s).value.1], Scanner.Inside(QUOTE, false)) == []
    decreases |s|
  {
    var n := Quoting.DecodeBody(s).value.1;
    var body := s[..n];
    if s[0] == QUOTE {
      assert body[1..] == [];
    } else {
      var step := if s[0] == BACKSLASH then Quoting.DecodeEscape(s).value.1 else 1;
      ScanBasicBody(s[step..]);
      assert body[step..] == s[step..][..n - step];
      if s[0] == BACKSLASH {
        EscapeHoldsNoQuote(s);
        ScanPlainRun(body[2..], step - 2);
        assert body[2..][step - 2..] == body[step..];
      }
    }
  }

  /** Skipping bytes that are neither quotes nor backslashes inside a string. */
  lemma {:induction false} ScanPlainRun(s: ByteString, n: nat)
    requires n <= |s| && forall i :: 0 <= i < n ==> s[i] != QUOTE && s[i] != BACKSLASH
    ensures Scanner.Scan(s, Scanner.Inside(QUOTE, false)) == Scanner.Scan(s[n..], Scanner.Inside(QUOTE, false))
  {
    if n > 0 {
      ScanPlainRun(s[1..], n - 1);
      assert s[1..][n - 1..] == s[n..];
    } else {
      assert s[0..] == s;
    }
  }

  lemma {:induction false} ScanLiteralBody(s: ByteString)
    requires LexLiteral(s).Some?
    ensures Scanner.Scan(s[..LexLiteral(s).value.1], Scanner.Inside(APOSTROPHE, false)) == []
  {
    var n := LexLiteral(s).value.1;
    var body := s[..n];
    if s[0] == APOSTROPHE {
      assert body[1..] == [];
    } else {
      ScanLiteralBody(s[1..]);
      assert body[1..] == s[1..][..n - 1];
    }
  }

  lemma {:induction false} ScanBareRun(s: ByteString)
    requires forall i :: 0 <= i < |s| ==> IsBareKeyByte(s[i])
    ensures Scanner.Scan(s, Scanner.Outside) == []
  {
    if s != [] {
      ScanBareRun(s[1..]);
    }
  }

  /** A scalar holds no comment, whatever `#` its string contains. */
  lemma ScalarHoldsNoComment(s: ByteString)
    requires LexScalar(s).Some?
    ensures Scanner.RetainedOf(s[..LexScalar(s).value.1]) == []
  {
    var n := LexScalar(s).value.1;
    var lexeme := s[..n];
    if Scanner.IsQuote(s[0]) {
      assert lexeme[1..] == s[1..][..n - 1];
      if s[0] == QUOTE {
        ScanBasicBody(s[1..]);
      } else {
        ScanLiteralBody(s[1..]);
      }
      assert !Scanner.Triple(lexeme, s[0]);
    } else {
      ScanBareRun(lexeme);
    }
  }
}
