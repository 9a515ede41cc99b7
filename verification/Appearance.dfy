/** Decoding appearance documents (`src/appearance_document.cpp:22-101`, and `parse`
    in `src/codec.cpp:222-290`): version 1 is strict and complete, version 2 is a
    sparse overlay on the defaults.

    The struct's members are a table of fields, `Format`, and an appearance maps
    fields to values. All results hold for every well-formed table. */
module Appearance {
  import opened Bytes
  import opened Documents
  import Utf8

  // ---------------------------------------------------------------------------
  // Trees and formats

  datatype Node = Scalar(value: Value) | Table(entries: map<Key, Node>)

  const VERSION: Key := [118, 101, 114, 115, 105, 111, 110]
  const DOCUMENT_VERSION: int := 1
  const EDITING_VERSION: int := 2

  /** A table and a key in it. */
  type FieldName = (Key, Key)

  datatype Setting = Setting(default: Value, trimmed: bool, accepts: Value -> bool)

  /** The fields every version 1 document has, and the optional numbers. */
  datatype Format = Format(fields: map<FieldName, Setting>, optionals: map<FieldName, Value -> bool>)

  type Values = map<FieldName, Value>

  function Get(node: Node, key: Key): Option<Node> {
    if node.Table? && key in node.entries then Some(node.entries[key]) else None
  }

  function GetField(root: Node, name: FieldName): Option<Node> {
    match Get(root, name.0)
    case None => None
    case Some(table) => Get(table, name.1)
  }

  predicate IsNumber(node: Node) {
    node.Scalar? && (node.value.Integer? || node.value.Float?)
  }

  predicate HasTable(format: Format, table: Key) {
    exists name :: name in format.fields && name.0 == table
  }

  /** Leading and trailing space is dropped from names before they are checked. */
  function Normalized(field: Setting, value: Value): Value {
    if field.trimmed && value.Text? then Text(Utf8.Trim(value.text)) else value
  }

  /** Defaults are valid, and are typed and named so that a document can hold them. */
  ghost predicate WellFormed(format: Format) {
    && (forall name :: name in format.fields ==>
         && name.0 != VERSION && name !in format.optionals
         && (format.fields[name].default.Text? || format.fields[name].default.Integer? || format.fields[name].default.Float?)
         && Normalized(format.fields[name], format.fields[name].default) == format.fields[name].default
         && format.fields[name].accepts(format.fields[name].default))
    && (forall name :: name in format.optionals ==> name.0 != VERSION && HasTable(format, name.0))
  }

  // ---------------------------------------------------------------------------
  // Version 1

  /** A value of the type of `like`; integers count as numbers for floats. */
  function Typed(like: Value, node: Node): Option<Value> {
    match node
    case Table(_) => None
    case Scalar(value) =>
      match like
      case Float(_) => (match value
                        case Integer(n) => Some(Float(Number(n as real)))
                        case Float(_) => Some(value)
                        case _ => None)
      case _ => if SameKind(value, like) then Some(value) else None
  }

  const A_NUMBER: Value := Float(Number(0.0))

  /** No table or key but the format's. */
  ghost predicate OnlyKnown(format: Format, root: Node) {
    && (forall key :: Get(root, key).Some? ==> key == VERSION || HasTable(format, key))
    && (forall name: FieldName :: GetField(root, name).Some? ==> name in format.fields || name in format.optionals)
  }

  ghost predicate AllTables(format: Format, root: Node) {
    forall name :: name in format.fields ==> Get(root, name.0).Some? && Get(root, name.0).value.Table?
  }

  /** The value of a field as the parser stores it. */
  function FieldValue(format: Format, root: Node, name: FieldName): Option<Value> {
    match GetField(root, name)
    case None => None
    case Some(node) =>
      if name in format.fields then
        match Typed(format.fields[name].default, node)
        case None => None
        case Some(value) => Some(Normalized(format.fields[name], value))
      else Typed(A_NUMBER, node)
  }

  predicate Accepted(format: Format, name: FieldName, value: Value) {
    if name in format.fields then format.fields[name].accepts(value)
    else name in format.optionals && format.optionals[name](value)
  }

  /** Every required field has a valid value, and so has every optional field there is. */
  ghost predicate Complete(format: Format, root: Node) {
    && (forall name :: name in format.fields ==>
         FieldValue(format, root, name).Some? && Accepted(format, name, FieldValue(format, root, name).value))
    && (forall name :: name in format.optionals && GetField(root, name).Some? ==>
         FieldValue(format, root, name).Some? && Accepted(format, name, FieldValue(format, root, name).value))
  }

  /** The appearance a tree of fields stands for. */
  function ValuesOf(format: Format, root: Node): Values {
    map name | name in format.fields.Keys + format.optionals.Keys && FieldValue(format, root, name).Some?
      :: FieldValue(format, root, name).value
  }

  /** The strict version 1 parser, on the parsed tree. */
  ghost function ParseV1(format: Format, root: Node): Option<Values> {
    if Get(root, VERSION) == Some(Scalar(Integer(DOCUMENT_VERSION)))
      && OnlyKnown(format, root) && AllTables(format, root) && Complete(format, root)
    then Some(ValuesOf(format, root))
    else None
  }

  // ---------------------------------------------------------------------------
  // The overlay

  datatype Note = UnknownField(path: KeyPath) | InvalidTable(path: KeyPath) | InvalidType(path: KeyPath)

  predicate IsOptional(format: Format, prefix: KeyPath, key: Key) {
    |prefix| == 1 && (prefix[0], key) in format.optionals
  }

  predicate Skipped(prefix: KeyPath, key: Key) {
    prefix == [] && key == VERSION
  }

  predicate InvalidTypeOf(known: Option<Node>, node: Node, optional: bool) {
    if optional || (known.Some? && known.value.Scalar? && known.value.value.Float?) then !IsNumber(node)
    else known.Some? && (known.value.Table? != node.Table? ||
                         (known.value.Scalar? && node.Scalar? && !SameKind(node.value, known.value.value)))
  }

  /** What the overlay leaves under one key. */
  function Chosen(format: Format, effective: Node, incoming: Node, prefix: KeyPath, key: Key): Option<Node>
    requires effective.Table? && incoming.Table?
    decreases incoming, 0
  {
    var known := Get(effective, key);
    if key !in incoming.entries || Skipped(prefix, key) then known
    else
      var node := incoming.entries[key];
      var optional := IsOptional(format, prefix, key);
      if known.None? && !optional then None
      else if known.Some? && known.value.Table? then
        if node.Table? then Some(Overlaid(format, known.value, node, prefix + [key])) else known
      else if InvalidTypeOf(known, node, optional) then known
      else Some(node)
  }

  function Overlaid(format: Format, effective: Node, incoming: Node, prefix: KeyPath): (result: Node)
    requires effective.Table? && incoming.Table?
    ensures result.Table?
    decreases incoming, 1
  {
    Table(map key | key in effective.entries.Keys + incoming.entries.Keys
                    && Chosen(format, effective, incoming, prefix, key).Some?
            :: Chosen(format, effective, incoming, prefix, key).value)
  }

  function NotesAt(format: Format, effective: Node, incoming: Node, prefix: KeyPath, key: Key): set<Note>
    requires effective.Table? && incoming.Table? && key in incoming.entries
    decreases incoming, 0
  {
    var known, node, path := Get(effective, key), incoming.entries[key], prefix + [key];
    var optional := IsOptional(format, prefix, key);
    if Skipped(prefix, key) then {}
    else if known.None? && !optional then {UnknownField(path)}
    else if known.Some? && known.value.Table? then
      if node.Table? then Notes(format, known.value, node, path) else {InvalidTable(path)}
    else if InvalidTypeOf(known, node, optional) then {InvalidType(path)}
    else {}
  }

  function Notes(format: Format, effective: Node, incoming: Node, prefix: KeyPath): set<Note>
    requires effective.Table? && incoming.Table?
    decreases incoming, 1
  {
    set key, note | key in incoming.entries && note in NotesAt(format, effective, incoming, prefix, key) :: note
  }

  /** The overlay so far, with `done` of the incoming keys visited. */
  ghost predicate OverlaidSoFar(format: Format, effective: Node, incoming: Node, prefix: KeyPath, done: set<Key>,
                                entries: map<Key, Node>, notes: set<Note>)
    requires effective.Table? && incoming.Table? && done <= incoming.entries.Keys
  {
    && (forall key :: key in done ==>
         (key in entries <==> Chosen(format, effective, incoming, prefix, key).Some?)
         && (key in entries ==> entries[key] == Chosen(format, effective, incoming, prefix, key).value))
    && (forall key :: key !in done ==>
         (key in entries <==> key in effective.entries) && (key in entries ==> entries[key] == effective.entries[key]))
    && notes == (set key, note | key in done && note in NotesAt(format, effective, incoming, prefix, key) :: note)
  }

  lemma NotYetVisited(format: Format, effective: Node, incoming: Node, prefix: KeyPath, done: set<Key>,
                      entries: map<Key, Node>, notes: set<Note>, key: Key)
    requires effective.Table? && incoming.Table? && done <= incoming.entries.Keys
    requires OverlaidSoFar(format, effective, incoming, prefix, done, entries, notes) && key !in done
    ensures Get(Table(entries), key) == Get(effective, key)
  {}

  /** Visiting one more key. */
  lemma OverlayStep(format: Format, effective: Node, incoming: Node, prefix: KeyPath, done: set<Key>, key: Key,
                    entries: map<Key, Node>, notes: set<Note>, entries': map<Key, Node>)
    requires effective.Table? && incoming.Table? && done <= incoming.entries.Keys
    requires OverlaidSoFar(format, effective, incoming, prefix, done, entries, notes)
    requires key !in done && key in incoming.entries
    requires Get(Table(entries'), key) == Chosen(format, effective, incoming, prefix, key)
    requires forall k :: k != key ==> (k in entries <==> k in entries') && (k in entries ==> entries[k] == entries'[k])
    ensures OverlaidSoFar(format, effective, incoming, prefix, done + {key}, entries',
                          notes + NotesAt(format, effective, incoming, prefix, key))
  {
    hide Chosen, NotesAt;
    assert (set k, note | k in done + {key} && note in NotesAt(format, effective, incoming, prefix, k) :: note)
        == (set k, note | k in done && note in NotesAt(format, effective, incoming, prefix, k) :: note)
           + NotesAt(format, effective, incoming, prefix, key);
  }

  lemma WholeOverlay(format: Format, effective: Node, incoming: Node, prefix: KeyPath,
                     entries: map<Key, Node>, notes: set<Note>)
    requires effective.Table? && incoming.Table?
    requires OverlaidSoFar(format, effective, incoming, prefix, incoming.entries.Keys, entries, notes)
    ensures Table(entries) == Overlaid(format, effective, incoming, prefix)
    ensures notes == Notes(format, effective, incoming, prefix)
  {
    var all := Overlaid(format, effective, incoming, prefix).entries;
    forall key ensures key in entries <==> key in all {
      if key !in incoming.entries {
        assert Chosen(format, effective, incoming, prefix, key) == Get(effective, key);
      }
    }
    forall key | key in entries ensures entries[key] == all[key] {
      if key !in incoming.entries {
        assert Chosen(format, effective, incoming, prefix, key) == Get(effective, key);
      }
    }
    assert entries == all;
  }

  /** The body of the overlay loop, for one incoming key. */
  method OverlayKey(format: Format, current: map<Key, Node>, incoming: Node, prefix: KeyPath, key: Key,
                    ghost effective: Node)
    returns (entries: map<Key, Node>, notes: set<Note>)
    requires effective.Table? && incoming.Table? && key in incoming.entries
    requires Get(Table(current), key) == Get(effective, key)
    ensures Get(Table(entries), key) == Chosen(format, effective, incoming, prefix, key)
    ensures forall k :: k != key ==> (k in current <==> k in entries) && (k in current ==> current[k] == entries[k])
    ensures notes == NotesAt(format, effective, incoming, prefix, key)
    decreases incoming, 0
  {
    entries, notes := current, {};
    if Skipped(prefix, key) {
      return;
    }
    var node, path := incoming.entries[key], prefix + [key];
    var optional := IsOptional(format, prefix, key);
    if key !in entries && !optional {
      notes := {UnknownField(path)};
      return;
    }
    if key in entries && entries[key].Table? {
      if node.Table? {
        var inner;
        inner, notes := Overlay(format, entries[key], node, path);
        entries := entries[key := inner];
      } else {
        notes := {InvalidTable(path)};
      }
    } else if InvalidTypeOf(if key in entries then Some(entries[key]) else None, node, optional) {
      notes := {InvalidType(path)};
    } else {
      entries := entries[key := node];
    }
  }

  /** The overlay loop: unknown keys only warn, ill-typed ones are errors, and both
      leave the default in place. */
  method Overlay(format: Format, effective: Node, incoming: Node, prefix: KeyPath) returns (result: Node, notes: set<Note>)
    requires effective.Table? && incoming.Table?
    ensures result == Overlaid(format, effective, incoming, prefix)
    ensures notes == Notes(format, effective, incoming, prefix)
    decreases incoming, 1
  {
    hide OverlaidSoFar, Chosen, NotesAt, Overlaid, Notes;
    var entries := effective.entries;
    notes := {};
    var remaining := incoming.entries.Keys;
    NothingVisited(format, effective, incoming, prefix);
    while remaining != {}
      invariant remaining <= incoming.entries.Keys
      invariant OverlaidSoFar(format, effective, incoming, prefix, incoming.entries.Keys - remaining, entries, notes)
      decreases |remaining|
    {
      var key :| key in remaining;
      ghost var done := incoming.entries.Keys - remaining;
      NotYetVisited(format, effective, incoming, prefix, done, entries, notes, key);
      var next, more := OverlayKey(format, entries, incoming, prefix, key, effective);
      OverlayStep(format, effective, incoming, prefix, done, key, entries, notes, next);
      entries, notes, remaining := next, notes + more, remaining - {key};
      assert incoming.entries.Keys - remaining == done + {key};
    }
    assert incoming.entries.Keys - remaining == incoming.entries.Keys;
    WholeOverlay(format, effective, incoming, prefix, entries, notes);
    result := Table(entries);
  }

  lemma NothingVisited(format: Format, effective: Node, incoming: Node, prefix: KeyPath)
    requires effective.Table? && incoming.Table?
    ensures OverlaidSoFar(format, effective, incoming, prefix, incoming.entries.Keys - incoming.entries.Keys,
                          effective.entries, {})
  {}
}
