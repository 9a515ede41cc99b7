/** `serialize` (`src/codec.cpp:292-330`): the text of an appearance document, and a
    reader of such texts, line by line, into the tree the codec works on. */
module AppearanceText {
  import opened Bytes
  import opened Documents
  import opened Patch
  import opened Fragment
  import opened FragmentLines
  import opened FragmentReading
  import opened Appearance
  import opened AppearanceMeaning
  import Quoting
  import Utf8

  // ---------------------------------------------------------------------------
  // Numbers

  /** The doubles there are, finitely many of them, and printing and reading them. */
  datatype Numbers = Numbers(doubles: set<Double>, write: Double -> ByteString, read: ByteString -> Option<Double>)

  /** A digit, a sign, a point or an exponent mark. */
  predicate IsNumberByte(b: Byte) {
    48 <= b <= 57 || b == 43 || b == 45 || b == DOT || b == 69 || b == 101
  }

  /** `number` leaves no text that could be an integer. */
  predicate IsNumberText(s: ByteString) {
    && s != [] && (forall i :: 0 <= i < |s| ==> IsNumberByte(s[i]))
    && exists i :: 0 <= i < |s| && (s[i] == DOT || s[i] == 69 || s[i] == 101)
  }

  /** Finite doubles are printed as number texts and read back as what they were. */
  ghost predicate Faithful(numbers: Numbers) {
    forall d :: d in numbers.doubles && d.Number? ==>
      IsNumberText(numbers.write(d)) && numbers.read(numbers.write(d)) == Some(d)
  }

  // ---------------------------------------------------------------------------
  // Writing

  function LikeOf(format: Format, name: FieldName): Value {
    if name in format.fields then format.fields[name].default else A_NUMBER
  }

  /** A struct: every member has a value of its type, optional members may be absent. */
  ghost predicate Proper(format: Format, numbers: Numbers, values: Values) {
    && (forall name :: name in values ==> Known(format, name) && SameKind(values[name], LikeOf(format, name)))
    && (forall name :: name in format.fields ==> name in values)
    && (forall name :: name in values && values[name].Integer? ==>
         -0x8000_0000_0000_0000 <= values[name].number < 0x8000_0000_0000_0000)
    && OnlyDoubles(numbers, values)
  }

  /** Every number is one of the doubles. */
  ghost predicate OnlyDoubles(numbers: Numbers, values: Values) {
    forall name :: name in values && values[name].Float? ==> values[name].double in numbers.doubles
  }

  /** `validate` accepts only valid UTF-8 and finite numbers. */
  ghost predicate ChecksText(format: Format) {
    forall name: FieldName, value :: Accepted(format, name, value) ==>
      (value.Text? ==> Utf8.Decode(value.text).Some?) && (value.Float? ==> value.double.Number?)
  }

  function CanonicalAt(format: Format, name: FieldName, value: Value): Value {
    if name in format.fields then Normalized(format.fields[name], value) else value
  }

  /** `normalized`. */
  function Canonical(format: Format, values: Values): Values {
    map name | name in values :: CanonicalAt(format, name, values[name])
  }

  function Lexeme(numbers: Numbers, value: Value): ByteString {
    match value
    case Text(text) => Quoting.QuoteOf(text)
    case Float(d) => numbers.write(d)
    case _ => Print(value)
  }

  /** The tables of a document in the order they are written, with their keys. */
  type Layout = seq<(Key, seq<Key>)>

  predicate BareName(key: Key) {
    key != [] && forall i :: 0 <= i < |key| ==> IsBareKeyByte(key[i])
  }

  predicate BareNames(keys: seq<Key>) {
    forall i :: 0 <= i < |keys| ==> BareName(keys[i])
  }

  /** The layout has every field of the format once, under bare names. */
  ghost predicate LaysOut(layout: Layout, format: Format) {
    && (forall i :: 0 <= i < |layout| ==> BareName(layout[i].0) && layout[i].0 in TableNames(format))
    && (forall i, j :: 0 <= i < j < |layout| ==> layout[i].0 != layout[j].0)
    && (forall i :: 0 <= i < |layout| ==> Distinct(layout[i].1))
    && (forall i :: 0 <= i < |layout| ==> BareNames(layout[i].1))
    && forall name: FieldName :: Known(format, name) <==> HasField(layout, name)
  }

  predicate HasField(layout: Layout, name: FieldName) {
    exists i :: 0 <= i < |layout| && layout[i].0 == name.0 && name.1 in layout[i].1
  }

  function KeyLine(numbers: Numbers, key: Key, value: Value): ByteString {
    key + ASSIGN + Lexeme(numbers, value) + [NEWLINE]
  }

  /** The lines of the members that are there; optional ones may not be. */
  function MemberLines(numbers: Numbers, table: Key, keys: seq<Key>, values: Values): seq<ByteString> {
    if keys == [] then []
    else
      var last := |keys| - 1;
      MemberLines(numbers, table, keys[..last], values)
      + if (table, keys[last]) in values then [KeyLine(numbers, keys[last], values[(table, keys[last])])] else []
  }

  const BLANK_LINE: ByteString := [NEWLINE]

  const VERSION_LINE: ByteString := VERSION + ASSIGN + [49] + [NEWLINE]

  function TableLine(table: Key): ByteString {
    [OPEN_BRACKET] + table + [CLOSE_BRACKET] + [NEWLINE]
  }

  function DocumentLines(numbers: Numbers, layout: Layout, values: Values): seq<ByteString> {
    if layout == [] then [VERSION_LINE]
    else
      var last := |layout| - 1;
      DocumentLines(numbers, layout[..last], values)
      + ([BLANK_LINE, TableLine(layout[last].0)] + MemberLines(numbers, layout[last].0, layout[last].1, values))
  }

  /** The text that is written; nothing is when validation fails. */
  function Serialize(format: Format, layout: Layout, numbers: Numbers, values: Values): Option<ByteString> {
    var canonical := Canonical(format, values);
    if forall name :: name in canonical ==> Accepted(format, name, canonical[name])
    then Some(Concat(DocumentLines(numbers, layout, canonical)))
    else None
  }

  // ---------------------------------------------------------------------------
  // Reading lines

  datatype Line = Nothing | Opens(path: KeyPath) | Binds(key: Key, value: Value) | Malformed

  function CountNumber(s: ByteString): (n: nat)
    ensures n <= |s| && forall i :: 0 <= i < n ==> IsNumberByte(s[i])
  {
    if s != [] && IsNumberByte(s[0]) then 1 + CountNumber(s[1..]) else 0
  }

  /** A key and a number token. */
  function NumberAssign(numbers: Numbers, t: ByteString): Option<(Key, Value)> {
    match LexKey(t)
    case None => None
    case Some((key, n)) =>
      var equal := n + CountSpace(t[n..]);
      if equal == |t| || t[equal] != EQUALS then None
      else
        var begin := equal + 1 + CountSpace(t[equal + 1..]);
        var end := begin + CountNumber(t[begin..]);
        if end == begin || !IsTrail(t[end..]) then None
        else
          match numbers.read(t[begin..end])
          case None => None
          case Some(d) => Some((key, Float(d)))
  }

  /** The fragment's lines, extended by number tokens. */
  function LineOf(numbers: Numbers, line: ByteString): Line {
    match Classify(line)
    case Blank => Nothing
    case Header(path) => Opens(path)
    case Assign(key, value, _, _) => Binds(key, value)
    case Bad =>
      var s := Strip(line);
      var number := if RETURN in s then None else NumberAssign(numbers, s[CountSpace(s)..]);
      if number.Some? then Binds(number.value.0, number.value.1) else Malformed
  }

  function SplitLines(s: ByteString): seq<ByteString>
    decreases |s|
  {
    if s == [] then [] else [s[..NextLine(s, 0)]] + SplitLines(s[NextLine(s, 0)..])
  }

  function LinesRead(numbers: Numbers, lines: seq<ByteString>): (kinds: seq<Line>)
    ensures |kinds| == |lines| && forall i :: 0 <= i < |lines| ==> kinds[i] == LineOf(numbers, lines[i])
  {
    seq(|lines|, i requires 0 <= i < |lines| => LineOf(numbers, lines[i]))
  }

  function Gather(kinds: seq<Line>, section: KeyPath): Option<Reading> {
    if kinds == [] then Some(Reading([], [], section))
    else
      match kinds[0]
      case Malformed => None
      case Nothing => Gather(kinds[1..], section)
      case Opens(path) => Prefixed(Reading([], [path], path), Gather(kinds[1..], path))
      case Binds(key, value) => Prefixed(Reading([(section + [key], value)], [], section), Gather(kinds[1..], section))
  }

  function Prefixed(first: Reading, rest: Option<Reading>): Option<Reading> {
    if rest.None? then None else Some(Joined(first, rest.value))
  }

  // ---------------------------------------------------------------------------
  // The tree

  function EntriesOf(node: Node): map<Key, Node> {
    if node.Table? then node.entries else map[]
  }

  function ChildOf(node: Node, key: Key): Node {
    if key in EntriesOf(node) then EntriesOf(node)[key] else Table(map[])
  }

  /** The tree with a value at `path`. */
  function Inserted(node: Node, path: KeyPath, value: Value): Node
    decreases |path|
  {
    if path == [] then Scalar(value)
    else Table(EntriesOf(node)[path[0] := Inserted(ChildOf(node, path[0]), path[1..], value)])
  }

  /** The tree with a table at `path`. */
  function Opened(node: Node, path: KeyPath): Node
    decreases |path|
  {
    if path == [] then Table(EntriesOf(node))
    else Table(EntriesOf(node)[path[0] := Opened(ChildOf(node, path[0]), path[1..])])
  }

  function OpenAll(headers: seq<KeyPath>): Node {
    if headers == [] then Table(map[]) else Opened(OpenAll(headers[..|headers| - 1]), headers[|headers| - 1])
  }

  function InsertAll(node: Node, bindings: seq<Binding>): Node {
    if bindings == [] then node
    else
      var last := |bindings| - 1;
      Inserted(InsertAll(node, bindings[..last]), bindings[last].0, bindings[last].1)
  }

  function KeysBound(bindings: seq<Binding>): (keys: seq<KeyPath>)
    ensures |keys| == |bindings| && forall i :: 0 <= i < |keys| ==> keys[i] == bindings[i].0
  {
    seq(|bindings|, i requires 0 <= i < |bindings| => bindings[i].0)
  }

  /** The TOML library, as far as appearance documents go: valid UTF-8, line by line,
      no key or table twice. */
  ghost function ReadText(numbers: Numbers, text: ByteString): Option<Node> {
    if !Utf8.IsUtf8(text) then None
    else
      match Gather(LinesRead(numbers, SplitLines(text)), [])
      case None => None
      case Some(reading) =>
        if Distinct(KeysBound(reading.bindings)) && TablesAgree(KeysBound(reading.bindings), reading.headers)
        then Some(InsertAll(OpenAll(reading.headers), reading.bindings))
        else None
  }

  /** The strict parser on a text: the size limit, the TOML library, then the tree. */
  ghost function ParseText(format: Format, numbers: Numbers, text: ByteString): Option<Values> {
    if |text| > MAXIMUM_DOCUMENT_BYTES then None
    else
      match ReadText(numbers, text)
      case None => None
      case Some(tree) => ParseV1(format, tree)
  }
}
