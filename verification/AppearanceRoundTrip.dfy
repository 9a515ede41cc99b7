/** Writing an appearance and reading it back. */
module AppearanceRoundTrip {
  import opened Bytes
  import opened Documents
  import opened Fragment
  import opened FragmentLines
  import opened FragmentReading
  import opened Appearance
  import opened AppearanceMeaning
  import opened AppearanceText
  import opened AppearanceLines
  import AppearanceFormat
  import Quoting
  import Utf8

  // ---------------------------------------------------------------------------
  // The tree of a document

  lemma InsertedTwo(node: Node, table: Key, key: Key, value: Value)
    requires node.Table?
    ensures var tree := Inserted(node, [table, key], value);
      tree.Table? && forall k ::
        Get(tree, k) == if k == table then Some(Table(EntriesOf(ChildOf(node, table))[key := Scalar(value)])) else Get(node, k)
  {
    var path: KeyPath := [table, key];
    assert path[1..] == [key] && [key][1..] == [];
    assert Inserted(ChildOf(ChildOf(node, table), key), [], value) == Scalar(value);
    assert Inserted(ChildOf(node, table), [key], value) == Table(EntriesOf(ChildOf(node, table))[key := Scalar(value)]);
  }

  lemma InsertedOne(node: Node, key: Key, value: Value)
    requires node.Table?
    ensures var tree := Inserted(node, [key], value);
      tree.Table? && forall k :: Get(tree, k) == if k == key then Some(Scalar(value)) else Get(node, k)
  {
    assert [key][1..] == [];
  }

  lemma OpenedOne(node: Node, table: Key)
    requires node.Table?
    ensures var tree := Opened(node, [table]);
      tree.Table? && forall k ::
        Get(tree, k) == if k == table then Some(Table(EntriesOf(ChildOf(node, table)))) else Get(node, k)
  {
    assert [table][1..] == [];
  }

  /** Headers of one name open empty tables. */
  lemma {:induction false} OpenAllTables(headers: seq<KeyPath>)
    requires forall i :: 0 <= i < |headers| ==> |headers[i]| == 1
    ensures OpenAll(headers).Table?
    ensures forall key :: Get(OpenAll(headers), key) == if [key] in headers then Some(Table(map[])) else None
  {
    if headers != [] {
      var last := |headers| - 1;
      var table := headers[last][0];
      OpenAllTables(headers[..last]);
      assert headers[last] == [table];
      OpenedOne(OpenAll(headers[..last]), table);
      var tree := OpenAll(headers[..last]);
      assert EntriesOf(ChildOf(tree, table)) == map[] by {
        assert Get(tree, table) == if [table] in headers[..last] then Some(Table(map[])) else None;
      }
      forall key ensures [key] in headers <==> [key] in headers[..last] || key == table {
        if [key] in headers {
          var i :| 0 <= i < |headers| && headers[i] == [key];
          assert i < last ==> headers[..last][i] == [key];
        }
      }
    }
  }

  /** The value bound last at a path. */
  function BoundAt(bindings: seq<Binding>, path: KeyPath): Option<Value> {
    if bindings == [] then None
    else
      var last := |bindings| - 1;
      if bindings[last].0 == path then Some(bindings[last].1) else BoundAt(bindings[..last], path)
  }

  /** The version, and keys in tables that are open. */
  ghost predicate Flat(node: Node, bindings: seq<Binding>) {
    forall i :: 0 <= i < |bindings| ==>
      var path := bindings[i].0;
      || path == [VERSION]
      || (|path| == 2 && path[0] != VERSION && Get(node, path[0]).Some? && Get(node, path[0]).value.Table?)
  }

  /** What the inserted bindings leave of a tree. */
  ghost predicate FieldsOf(node: Node, bindings: seq<Binding>, tree: Node) {
    && tree.Table?
    && (forall key :: key != VERSION ==>
         && (Get(tree, key).Some? <==> Get(node, key).Some?)
         && (Get(node, key).Some? && Get(node, key).value.Table? ==> Get(tree, key).value.Table?))
    && (forall name: FieldName :: name.0 != VERSION ==>
         GetField(tree, name) == ValueOr(BoundAt(bindings, [name.0, name.1]), GetField(node, name)))
    && Get(tree, VERSION) == ValueOr(BoundAt(bindings, [VERSION]), Get(node, VERSION))
  }

  function ValueOr(value: Option<Value>, otherwise: Option<Node>): Option<Node> {
    if value.Some? then Some(Scalar(value.value)) else otherwise
  }

  lemma {:induction false} InsertAllFields(node: Node, bindings: seq<Binding>)
    requires node.Table? && Flat(node, bindings)
    ensures FieldsOf(node, bindings, InsertAll(node, bindings))
  {
    hide FieldsOf, Inserted;
    if bindings == [] {
      NoFields(node);
    } else {
      var last := |bindings| - 1;
      var front, path := bindings[..last], bindings[last].0;
      InsertAllFields(node, front);
      var tree := InsertAll(node, front);
      if path == [VERSION] {
        VersionField(node, bindings, tree);
      } else {
        TwoFields(node, bindings, tree);
      }
    }
  }

  lemma NoFields(node: Node)
    requires node.Table?
    ensures FieldsOf(node, [], node)
  {}

  lemma VersionField(node: Node, bindings: seq<Binding>, tree: Node)
    requires bindings != [] && bindings[|bindings| - 1].0 == [VERSION]
    requires FieldsOf(node, bindings[..|bindings| - 1], tree)
    ensures FieldsOf(node, bindings, Inserted(tree, [VERSION], bindings[|bindings| - 1].1))
  {
    hide Inserted;
    InsertedOne(tree, VERSION, bindings[|bindings| - 1].1);
    forall name: FieldName ensures [name.0, name.1] != [VERSION] {
      assert |[name.0, name.1]| != |[VERSION]|;
    }
  }

  lemma TwoFields(node: Node, bindings: seq<Binding>, tree: Node)
    requires bindings != [] && Flat(node, bindings) && bindings[|bindings| - 1].0 != [VERSION]
    requires FieldsOf(node, bindings[..|bindings| - 1], tree)
    ensures FieldsOf(node, bindings, Inserted(tree, bindings[|bindings| - 1].0, bindings[|bindings| - 1].1))
  {
    hide Inserted;
    var last := |bindings| - 1;
    var front, path, value := bindings[..last], bindings[last].0, bindings[last].1;
    var table, key := path[0], path[1];
    assert path == [table, key];
    InsertedTwo(tree, table, key, value);
    var after := Inserted(tree, path, value);
    assert |[VERSION]| != |path|;
    forall name: FieldName | name.0 != VERSION
      ensures GetField(after, name) == ValueOr(BoundAt(bindings, [name.0, name.1]), GetField(node, name))
    {
      if [name.0, name.1] == path {
        assert name.0 == [name.0, name.1][0] && name.1 == [name.0, name.1][1];
      } else {
        assert name.0 != table || name.1 != key;
        assert GetField(after, name) == GetField(tree, name);
      }
    }
  }

  // ---------------------------------------------------------------------------
  // The bindings of a document

  lemma {:induction false} BoundAtJoin(a: seq<Binding>, b: seq<Binding>, path: KeyPath)
    ensures BoundAt(a + b, path) == if BoundAt(b, path).Some? then BoundAt(b, path) else BoundAt(a, path)
  {
    if b == [] {
      assert a + b == a;
    } else {
      var last := |b| - 1;
      assert (a + b)[..|a + b| - 1] == a + b[..last];
      BoundAtJoin(a, b[..last], path);
    }
  }

  lemma PathParts(a: Key, x: Key, b: Key, y: Key)
    ensures [a, x] == [b, y] <==> a == b && x == y
    ensures [a, x] != [VERSION]
  {
    if [a, x] == [b, y] {
      assert [a, x][0] == [b, y][0] && [a, x][1] == [b, y][1];
    }
    assert |[a, x]| != |[VERSION]|;
  }

  lemma {:induction false} KeyBindingsAt(table: Key, keys: seq<Key>, values: Values, name: FieldName)
    ensures BoundAt(KeyBindings(table, keys, values), [name.0, name.1])
         == if name.0 == table && name.1 in keys && name in values then Some(values[name]) else None
    ensures BoundAt(KeyBindings(table, keys, values), [VERSION]).None?
  {
    if keys != [] {
      var last := |keys| - 1;
      var front, key := keys[..last], keys[last];
      KeyBindingsAt(table, front, values, name);
      PathParts(table, key, name.0, name.1);
      assert name.1 in keys <==> name.1 in front || name.1 == key;
      if (table, key) in values {
        var one: seq<Binding>, none: seq<Binding> := [([table, key], values[(table, key)])], [];
        assert one[..0] == none;
        BoundAtJoin(KeyBindings(table, front, values), one, [name.0, name.1]);
        BoundAtJoin(KeyBindings(table, front, values), one, [VERSION]);
      } else {
        assert KeyBindings(table, front, values) + [] == KeyBindings(table, front, values);
      }
    }
  }

  lemma {:induction false} DocumentBindingsAt(layout: Layout, values: Values, name: FieldName)
    requires forall i, j :: 0 <= i < j < |layout| ==> layout[i].0 != layout[j].0
    ensures BoundAt(DocumentBindings(layout, values), [name.0, name.1])
         == if HasField(layout, name) && name in values then Some(values[name]) else None
    ensures BoundAt(DocumentBindings(layout, values), [VERSION]) == Some(Integer(DOCUMENT_VERSION))
    decreases |layout|
  {
    hide KeyBindings;
    PathParts(name.0, name.1, name.0, name.1);
    if layout == [] {
      var one: seq<Binding>, none: seq<Binding> := [([VERSION], Integer(DOCUMENT_VERSION))], [];
      assert one[..0] == none;
      assert DocumentBindings(layout, values) == one;
    } else {
      var last := |layout| - 1;
      var front, table, keys := layout[..last], layout[last].0, layout[last].1;
      DocumentBindingsAt(front, values, name);
      KeyBindingsAt(table, keys, values, name);
      BoundAtJoin(DocumentBindings(front, values), KeyBindings(table, keys, values), [name.0, name.1]);
      BoundAtJoin(DocumentBindings(front, values), KeyBindings(table, keys, values), [VERSION]);
      HasFieldLast(layout, name);
    }
  }

  lemma HasFieldLast(layout: Layout, name: FieldName)
    requires layout != []
    ensures var last := |layout| - 1;
      HasField(layout, name) <==> HasField(layout[..last], name) || (layout[last].0 == name.0 && name.1 in layout[last].1)
  {
    var front := layout[..|layout| - 1];
    if HasField(front, name) {
      var i :| 0 <= i < |front| && front[i].0 == name.0 && name.1 in front[i].1;
      assert layout[i].0 == name.0 && name.1 in layout[i].1;
    }
    if i :| 0 <= i < |layout| && layout[i].0 == name.0 && name.1 in layout[i].1 {
      assert i < |front| ==> front[i] == layout[i];
    }
  }

  lemma KeysBoundJoin(a: seq<Binding>, b: seq<Binding>)
    ensures KeysBound(a + b) == KeysBound(a) + KeysBound(b)
  {}

  /** The keys of one table are distinct, and in that table. */
  lemma {:induction false} KeysDistinct(table: Key, keys: seq<Key>, values: Values)
    requires Distinct(keys)
    ensures Distinct(KeysBound(KeyBindings(table, keys, values)))
    ensures forall path :: path in KeysBound(KeyBindings(table, keys, values)) ==>
      |path| == 2 && path[0] == table && path[1] in keys
  {
    if keys != [] {
      var last := |keys| - 1;
      var front, key := keys[..last], keys[last];
      KeysDistinct(table, front, values);
      var before := KeyBindings(table, front, values);
      if (table, key) in values {
        var one: seq<Binding> := [([table, key], values[(table, key)])];
        KeysBoundJoin(before, one);
        assert KeysBound(one) == [[table, key]];
        assert key !in front;
        DistinctTogether(KeysBound(before), [[table, key]]);
      } else {
        assert before + [] == before;
      }
    }
  }

  /** The version, or a key in a table of the layout. */
  ghost predicate InLayout(layout: Layout, path: KeyPath) {
    path == [VERSION] || (|path| == 2 && exists i :: 0 <= i < |layout| && layout[i].0 == path[0])
  }

  lemma InLonger(layout: Layout, path: KeyPath)
    requires layout != [] && InLayout(layout[..|layout| - 1], path)
    ensures InLayout(layout, path)
  {
    var front := layout[..|layout| - 1];
    if path != [VERSION] {
      var i :| 0 <= i < |front| && front[i].0 == path[0];
      assert layout[i].0 == path[0];
    }
  }

  lemma OtherTable(layout: Layout, path: KeyPath)
    requires layout != [] && forall i, j :: 0 <= i < j < |layout| ==> layout[i].0 != layout[j].0
    requires |path| == 2 && path[0] == layout[|layout| - 1].0
    ensures !InLayout(layout[..|layout| - 1], path) && InLayout(layout, path)
  {
    assert |path| != |[VERSION]|;
  }

  lemma {:induction false} AllKeysDistinct(layout: Layout, values: Values)
    requires forall i, j :: 0 <= i < j < |layout| ==> layout[i].0 != layout[j].0
    requires forall i :: 0 <= i < |layout| ==> Distinct(layout[i].1)
    ensures Distinct(KeysBound(DocumentBindings(layout, values)))
    ensures forall path :: path in KeysBound(DocumentBindings(layout, values)) ==> InLayout(layout, path)
    decreases |layout|
  {
    hide KeyBindings, InLayout;
    if layout == [] {
      OnlyVersion(values);
    } else {
      var last := |layout| - 1;
      var front, table, keys := layout[..last], layout[last].0, layout[last].1;
      AllKeysDistinct(front, values);
      KeysDistinct(table, keys, values);
      var before, here := DocumentBindings(front, values), KeyBindings(table, keys, values);
      KeysBoundJoin(before, here);
      forall path | path in KeysBound(here) ensures path !in KeysBound(before) && InLayout(layout, path) {
        OtherTable(layout, path);
      }
      DistinctTogether(KeysBound(before), KeysBound(here));
      forall path | path in KeysBound(before) ensures InLayout(layout, path) {
        InLonger(layout, path);
      }
    }
  }

  lemma OnlyVersion(values: Values)
    ensures KeysBound(DocumentBindings([], values)) == [[VERSION]] && InLayout([], [VERSION])
    ensures Distinct(KeysBound(DocumentBindings([], values)))
  {
    assert KeysBound(DocumentBindings([], values)) == [[VERSION]];
  }

  /** No table or key of the document is there twice. */
  lemma DocumentAgrees(format: Format, layout: Layout, values: Values)
    requires WellFormed(format) && LaysOut(layout, format)
    ensures var keys := KeysBound(DocumentBindings(layout, values));
      Distinct(keys) && TablesAgree(keys, DocumentHeaders(layout))
  {
    hide DocumentBindings, WellFormed;
    AllKeysDistinct(layout, values);
    var keys, headers := KeysBound(DocumentBindings(layout, values)), DocumentHeaders(layout);
    forall i, j | 0 <= i < j < |headers| ensures headers[i] != headers[j] {
      assert headers[i][0] != headers[j][0];
    }
    forall i, j | 0 <= i < |keys| && 0 <= j < |headers| ensures !(keys[i] <= headers[j]) {
      assert keys[i] in keys;
      if keys[i] == [VERSION] {
        NoVersionTable(format, layout, j);
        assert keys[i][0] != headers[j][0];
      }
    }
  }

  lemma NoVersionTable(format: Format, layout: Layout, i: nat)
    requires WellFormed(format) && LaysOut(layout, format) && i < |layout|
    ensures layout[i].0 != VERSION && layout[i].0 in TableNames(format)
  {}

  lemma HeaderOf(layout: Layout, key: Key)
    ensures [key] in DocumentHeaders(layout) <==> exists i :: 0 <= i < |layout| && layout[i].0 == key
  {
    if [key] in DocumentHeaders(layout) {
      var i :| 0 <= i < |layout| && DocumentHeaders(layout)[i] == [key];
      assert [layout[i].0][0] == [key][0];
    }
    if i :| 0 <= i < |layout| && layout[i].0 == key {
      assert DocumentHeaders(layout)[i] == [key];
    }
  }

  function DocumentTree(layout: Layout, values: Values): Node {
    InsertAll(OpenAll(DocumentHeaders(layout)), DocumentBindings(layout, values))
  }

  /** The tree that is read: the version, every table, and just the given fields. */
  lemma TreeOfDocument(format: Format, layout: Layout, values: Values)
    requires WellFormed(format) && LaysOut(layout, format) && forall name :: name in values ==> Known(format, name)
    ensures var tree := DocumentTree(layout, values);
      && Get(tree, VERSION) == Some(Scalar(Integer(DOCUMENT_VERSION))) && AllTables(format, tree)
      && (forall key :: Get(tree, key).Some? ==> key == VERSION || Appearance.HasTable(format, key))
      && forall name: FieldName :: GetField(tree, name) == if name in values then Some(Scalar(values[name])) else None
  {
    hide WellFormed, LaysOut, InsertAll, OpenAll, DocumentBindings, BoundAt, HasField;
    var node, bindings := OpenAll(DocumentHeaders(layout)), DocumentBindings(layout, values);
    OpenAllTables(DocumentHeaders(layout));
    LayoutParts(format, layout);
    AllKeysDistinct(layout, values);
    forall key ensures [key] in DocumentHeaders(layout) <==> key in TableNames(format) {
      HeaderOf(layout, key);
    }
    forall i | 0 <= i < |bindings| && bindings[i].0 != [VERSION]
      ensures var path := bindings[i].0;
        |path| == 2 && path[0] != VERSION && Get(node, path[0]).Some? && Get(node, path[0]).value.Table?
    {
      assert KeysBound(bindings)[i] in KeysBound(bindings);
      var j :| 0 <= j < |layout| && layout[j].0 == bindings[i].0[0];
      NoVersionTable(format, layout, j);
    }
    InsertAllFields(node, bindings);
    var tree := DocumentTree(layout, values);
    forall name: FieldName ensures GetField(tree, name) == if name in values then Some(Scalar(values[name])) else None {
      DocumentBindingsAt(layout, values, name);
      if name in values {
        assert Known(format, name);
        KnownTable(format, name);
      }
    }
    DocumentBindingsAt(layout, values, ([], []));
    TablesOfTree(format, tree);
  }

  lemma TablesOfTree(format: Format, tree: Node)
    requires forall key :: key != VERSION ==> (Get(tree, key).Some? <==> key in TableNames(format))
    requires forall key :: key != VERSION && key in TableNames(format) ==> Get(tree, key).Some? && Get(tree, key).value.Table?
    requires WellFormed(format)
    ensures AllTables(format, tree)
    ensures forall key :: Get(tree, key).Some? ==> key == VERSION || Appearance.HasTable(format, key)
  {
    forall name | name in format.fields ensures Get(tree, name.0).Some? && Get(tree, name.0).value.Table? {
      KnownTable(format, name);
    }
  }

  lemma LayoutParts(format: Format, layout: Layout)
    requires WellFormed(format) && LaysOut(layout, format)
    ensures forall i, j :: 0 <= i < j < |layout| ==> layout[i].0 != layout[j].0
    ensures forall i :: 0 <= i < |layout| ==> BareName(layout[i].0) && BareNames(layout[i].1) && Distinct(layout[i].1)
    ensures forall name: FieldName :: Known(format, name) <==> HasField(layout, name)
    ensures forall key :: key in TableNames(format) <==> exists i :: 0 <= i < |layout| && layout[i].0 == key
  {
    forall key | key in TableNames(format) ensures exists i :: 0 <= i < |layout| && layout[i].0 == key {
      var name :| name in format.fields && name.0 == key;
      assert Known(format, name) && HasField(layout, name);
      var i :| 0 <= i < |layout| && layout[i].0 == name.0 && name.1 in layout[i].1;
    }
  }

  /** Parsing a tree whose fields are exactly these canonical values. */
  lemma TreeParses(format: Format, tree: Node, values: Values)
    requires WellFormed(format) && Get(tree, VERSION) == Some(Scalar(Integer(DOCUMENT_VERSION))) && AllTables(format, tree)
    requires forall key :: Get(tree, key).Some? ==> key == VERSION || HasTable(format, key)
    requires forall name: FieldName :: GetField(tree, name) == if name in values then Some(Scalar(values[name])) else None
    requires forall name :: name in values ==>
      && Known(format, name) && SameKind(values[name], LikeOf(format, name)) && Accepted(format, name, values[name])
      && CanonicalAt(format, name, values[name]) == values[name]
    requires forall name :: name in format.fields ==> name in values
    ensures ParseV1(format, tree) == Some(values)
  {
    hide Normalized, Accepted, GetField, WellFormed;
    forall name: FieldName | Known(format, name)
      ensures FieldValue(format, tree, name) == if name in values then Some(values[name]) else None
    {
      if name in values {
        TreeValue(format, tree, name, values[name]);
      }
    }
    assert ValuesOf(format, tree) == values;
  }

  lemma TreeValue(format: Format, tree: Node, name: FieldName, value: Value)
    requires Known(format, name) && GetField(tree, name) == Some(Scalar(value))
    requires SameKind(value, LikeOf(format, name)) && CanonicalAt(format, name, value) == value
    requires WellFormed(format)
    ensures FieldValue(format, tree, name) == Some(value)
  {
    hide Normalized;
  }

  // ---------------------------------------------------------------------------
  // UTF-8

  lemma {:induction false} EncodedJoin(a: seq<Utf8.Scalar>, b: seq<Utf8.Scalar>)
    ensures Utf8.EncodeAll(a + b) == Utf8.EncodeAll(a) + Utf8.EncodeAll(b)
  {
    if a == [] {
      assert a + b == b;
    } else {
      EncodedJoin(a[1..], b);
      assert (a + b)[1..] == a[1..] + b;
      Associative(Utf8.Encode(a[0]), Utf8.EncodeAll(a[1..]), Utf8.EncodeAll(b));
    }
  }

  lemma Utf8Join(a: ByteString, b: ByteString)
    requires Utf8.IsUtf8(a) && Utf8.IsUtf8(b)
    ensures Utf8.IsUtf8(a + b)
  {
    hide Utf8.EncodeAll;
    var x :| Utf8.Encodes(a, x);
    var y :| Utf8.Encodes(b, y);
    EncodedJoin(x, y);
    assert Utf8.Encodes(a + b, x + y);
  }

  lemma AsciiText(s: ByteString)
    requires forall i :: 0 <= i < |s| ==> s[i] < 0x80
    ensures Utf8.IsUtf8(s)
  {
    hide Utf8.Decode, Utf8.IsUtf8;
    AppearanceFormat.AsciiIsUtf8(s);
    Utf8.DecodesIffUtf8(s);
  }

  lemma BareText(key: Key)
    requires BareName(key)
    ensures Utf8.IsUtf8(key)
  {
    hide Utf8.IsUtf8;
    forall i | 0 <= i < |key| ensures key[i] < 0x80 {
      NoBareSpecial(key[i]);
    }
    AsciiText(key);
  }

  lemma LexemeText(numbers: Numbers, value: Value)
    requires Faithful(numbers) && Writable(numbers, value)
    ensures Utf8.IsUtf8(Lexeme(numbers, value))
  {
    hide Utf8.IsUtf8, Quoting.QuoteOf, Print;
    match value {
      case Text(text) => Quoting.QuotedIsUtf8(text);
      case Float(d) =>
        TokenBytes(numbers.write(d));
        AsciiText(numbers.write(d));
      case Integer(number) => DigitsText(number);
      case _ =>
    }
  }

  lemma DigitsText(number: int)
    ensures Utf8.IsUtf8(Print(Integer(number)))
  {
    hide Utf8.IsUtf8, PrintNat;
    var n: nat := if number < 0 then -number else number;
    assert forall i :: 0 <= i < |PrintNat(n)| ==> 48 <= PrintNat(n)[i] <= 57;
    AsciiText(Print(Integer(number)));
  }

  lemma MemberText(numbers: Numbers, key: Key, value: Value)
    requires BareName(key) && Faithful(numbers) && Writable(numbers, value)
    ensures Utf8.IsUtf8(KeyLine(numbers, key, value))
  {
    hide Utf8.IsUtf8, Lexeme, BareName, Writable, Faithful;
    BareText(key);
    LexemeText(numbers, value);
    AsciiText(Patch.ASSIGN);
    AsciiText([NEWLINE]);
    Utf8Join(key, Patch.ASSIGN);
    Utf8Join(key + Patch.ASSIGN, Lexeme(numbers, value));
    Utf8Join(key + Patch.ASSIGN + Lexeme(numbers, value), [NEWLINE]);
  }

  ghost predicate AllUtf8(lines: seq<ByteString>) {
    forall i :: 0 <= i < |lines| ==> Utf8.IsUtf8(lines[i])
  }

  lemma {:induction false} ConcatText(lines: seq<ByteString>)
    requires AllUtf8(lines)
    ensures Utf8.IsUtf8(Concat(lines))
  {
    hide Utf8.IsUtf8;
    if lines == [] {
      AsciiText([]);
    } else {
      ConcatText(lines[1..]);
      Utf8Join(lines[0], Concat(lines[1..]));
    }
  }

  lemma {:induction false} MembersText(numbers: Numbers, table: Key, keys: seq<Key>, values: Values)
    requires Faithful(numbers) && WritableValues(numbers, values) && BareNames(keys)
    ensures AllUtf8(MemberLines(numbers, table, keys, values))
  {
    hide Utf8.IsUtf8, KeyLine, Faithful, Writable, BareName;
    if keys != [] {
      var last := |keys| - 1;
      MembersText(numbers, table, keys[..last], values);
      if (table, keys[last]) in values {
        MemberText(numbers, keys[last], values[(table, keys[last])]);
      }
    }
  }

  lemma {:induction false} DocumentText(numbers: Numbers, layout: Layout, values: Values)
    requires Faithful(numbers) && WritableValues(numbers, values)
    requires forall i :: 0 <= i < |layout| ==> BareName(layout[i].0) && BareNames(layout[i].1)
    ensures AllUtf8(DocumentLines(numbers, layout, values))
    decreases |layout|
  {
    hide Utf8.IsUtf8, MemberLines, Faithful, Writable, BareName, TableLine;
    if layout == [] {
      AsciiText(VERSION_LINE);
      assert DocumentLines(numbers, layout, values) == [VERSION_LINE];
    } else {
      var last := |layout| - 1;
      var table, keys := layout[last].0, layout[last].1;
      DocumentText(numbers, layout[..last], values);
      MembersText(numbers, table, keys, values);
      AsciiText(BLANK_LINE);
      TableText(table);
      var more := [BLANK_LINE, TableLine(table)] + MemberLines(numbers, table, keys, values);
      forall i | 0 <= i < |more| ensures Utf8.IsUtf8(more[i]) {
        assert i >= 2 ==> more[i] == MemberLines(numbers, table, keys, values)[i - 2];
      }
    }
  }

  lemma TableText(table: Key)
    requires BareName(table)
    ensures Utf8.IsUtf8(TableLine(table))
  {
    hide Utf8.IsUtf8;
    forall i | 0 <= i < |table| ensures table[i] < 0x80 {
      NoBareSpecial(table[i]);
    }
    AsciiText(TableLine(table));
  }

  // ---------------------------------------------------------------------------
  // Round trip

  lemma CanonicalIsNormal(format: Format, name: FieldName, value: Value)
    ensures CanonicalAt(format, name, CanonicalAt(format, name, value)) == CanonicalAt(format, name, value)
    ensures SameKind(CanonicalAt(format, name, value), value)
    ensures !value.Text? ==> CanonicalAt(format, name, value) == value
  {
    if value.Text? {
      Utf8.TrimIsIdempotent(value.text);
    }
  }

  lemma CanonicalDoubles(format: Format, numbers: Numbers, values: Values)
    requires OnlyDoubles(numbers, values)
    ensures OnlyDoubles(numbers, Canonical(format, values))
  {
    hide CanonicalAt;
    forall name | name in values ensures values[name].Float? <==> CanonicalAt(format, name, values[name]).Float? {
      CanonicalIsNormal(format, name, values[name]);
    }
    forall name | name in values && values[name].Float?
      ensures CanonicalAt(format, name, values[name]) == values[name]
    {
      CanonicalIsNormal(format, name, values[name]);
    }
  }

  lemma KindsAgree(a: Value, b: Value, c: Value)
    requires SameKind(a, b) && SameKind(b, c)
    ensures SameKind(a, c) && (a.Integer? <==> b.Integer?)
  {}

  lemma LikesAreScalars(format: Format, name: FieldName)
    requires WellFormed(format) && Known(format, name)
    ensures LikeOf(format, name).Text? || LikeOf(format, name).Integer? || LikeOf(format, name).Float?
  {}

  /** The normalized members of a valid struct can be written. */
  lemma CanonicalIsWritable(format: Format, numbers: Numbers, layout: Layout, values: Values, name: FieldName)
    requires WellFormed(format) && Proper(format, numbers, values) && ChecksText(format)
    requires Serialize(format, layout, numbers, values).Some? && name in values
    ensures var canonical := Canonical(format, values);
      && name in canonical && Known(format, name) && Writable(numbers, canonical[name]) && Accepted(format, name, canonical[name])
      && SameKind(canonical[name], LikeOf(format, name)) && CanonicalAt(format, name, canonical[name]) == canonical[name]
  {
    hide CanonicalAt, Accepted, Utf8.Decode, Utf8.IsUtf8, LikeOf, DocumentLines, WellFormed;
    var canonical := Canonical(format, values);
    assert name in canonical && Accepted(format, name, canonical[name]);
    CanonicalIsNormal(format, name, values[name]);
    KindsAgree(canonical[name], values[name], LikeOf(format, name));
    CanonicalDoubles(format, numbers, values);
    LikesAreScalars(format, name);
    if canonical[name].Text? {
      Utf8.DecodesIffUtf8(canonical[name].text);
    }
  }

  /** Every member of the struct has its quotable value in some table of the layout. */
  lemma QuotableByName(format: Format, layout: Layout, values: Values)
    requires forall name: FieldName :: Known(format, name) <==> HasField(layout, name)
    requires forall name :: name in values ==> Known(format, name)
    ensures QuotableDocument(layout, values) <==> forall name :: name in values ==> QuotableValue(values[name])
  {
    hide QuotableValue, Known;
    if QuotableDocument(layout, values) {
      forall name | name in values ensures QuotableValue(values[name]) {
        assert HasField(layout, name);
        var i :| 0 <= i < |layout| && layout[i].0 == name.0 && name.1 in layout[i].1;
        assert QuotableKeys(layout[i].0, layout[i].1, values);
        var j :| 0 <= j < |layout[i].1| && layout[i].1[j] == name.1;
      }
    }
  }

  /** The text of writable values, read back. */
  lemma TextReadsBack(format: Format, layout: Layout, numbers: Numbers, values: Values)
    requires WellFormed(format) && LaysOut(layout, format) && Faithful(numbers) && WritableValues(numbers, values)
    requires forall name :: name in values ==> Known(format, name)
    ensures ReadText(numbers, Concat(DocumentLines(numbers, layout, values)))
         == if forall name :: name in values ==> QuotableValue(values[name]) then Some(DocumentTree(layout, values)) else None
  {
    hide *;
    LayoutParts(format, layout);
    var lines := DocumentLines(numbers, layout, values);
    var section := DocumentGather(numbers, layout, values);
    SplitConcat(lines);
    DocumentText(numbers, layout, values);
    ConcatText(lines);
    QuotableByName(format, layout, values);
    DocumentAgrees(format, layout, values);
    ReadTextParts(numbers, Concat(lines), lines);
    TreeIs(layout, values);
  }

  lemma TreeIs(layout: Layout, values: Values)
    ensures DocumentTree(layout, values) == InsertAll(OpenAll(DocumentHeaders(layout)), DocumentBindings(layout, values))
  {}

  lemma ReadTextParts(numbers: Numbers, text: ByteString, lines: seq<ByteString>)
    requires Utf8.IsUtf8(text) && SplitLines(text) == lines
    ensures var reading := Gather(LinesRead(numbers, lines), []);
      && (reading.None? ==> ReadText(numbers, text).None?)
      && (reading.Some? && Distinct(KeysBound(reading.value.bindings))
          && TablesAgree(KeysBound(reading.value.bindings), reading.value.headers) ==>
            ReadText(numbers, text) == Some(InsertAll(OpenAll(reading.value.headers), reading.value.bindings)))
  {
    hide Utf8.IsUtf8, Gather, LinesRead, SplitLines, InsertAll, OpenAll;
  }

  /** What is serialized is read exactly when quoting leaves no raw control character
      in any text and the text is not too long, and then parses to the normalized
      appearance. */
  lemma SerializeRoundTrip(format: Format, layout: Layout, numbers: Numbers, values: Values)
    requires WellFormed(format) && LaysOut(layout, format) && Proper(format, numbers, values) && ChecksText(format) && Faithful(numbers)
    requires Serialize(format, layout, numbers, values).Some?
    ensures var text := Serialize(format, layout, numbers, values).value;
      ParseText(format, numbers, text)
      == if |text| <= MAXIMUM_DOCUMENT_BYTES
           && forall name :: name in values ==> QuotableValue(CanonicalAt(format, name, values[name]))
         then Some(Canonical(format, values)) else None
  {
    hide WellFormed, LaysOut, Faithful, ChecksText, Proper, QuotableValue, CanonicalAt, Writable, Accepted, Known, LikeOf,
      DocumentLines, ReadText, ParseV1, DocumentTree, Get, GetField, AllTables, Appearance.HasTable;
    var canonical := Canonical(format, values);
    var text := Serialize(format, layout, numbers, values).value;
    assert text == Concat(DocumentLines(numbers, layout, canonical));
    forall name | name in values
      ensures Known(format, name) && Writable(numbers, canonical[name]) && Accepted(format, name, canonical[name])
      ensures SameKind(canonical[name], LikeOf(format, name)) && CanonicalAt(format, name, canonical[name]) == canonical[name]
    {
      CanonicalIsWritable(format, numbers, layout, values, name);
    }
    TextReadsBack(format, layout, numbers, canonical);
    TreeOfDocument(format, layout, canonical);
    RequiredFields(format, numbers, values);
    TreeParses(format, DocumentTree(layout, canonical), canonical);
  }

  lemma RequiredFields(format: Format, numbers: Numbers, values: Values)
    requires Proper(format, numbers, values)
    ensures forall name :: name in format.fields ==> name in values
  {}
}
