/** What decoding an appearance document means, field by field. */
module AppearanceMeaning {
  import opened Bytes
  import opened Documents
  import opened Appearance

  // ---------------------------------------------------------------------------
  // Decoding

  function TableNames(format: Format): set<Key> {
    set name | name in format.fields :: name.0
  }

  function KeysIn(format: Format, table: Key): set<Key> {
    set name | name in format.fields && name.0 == table :: name.1
  }

  function TemplateTable(format: Format, table: Key): (node: Node)
    ensures node.Table?
  {
    Table(map key | key in KeysIn(format, table) :: Scalar(format.fields[(table, key)].default))
  }

  /** The defaults as a version 1 document. */
  function Template(format: Format): (node: Node)
    ensures node.Table?
  {
    Table(map table | table in TableNames(format) + {VERSION} ::
      if table == VERSION then Scalar(Integer(DOCUMENT_VERSION)) else TemplateTable(format, table))
  }

  function Defaults(format: Format): Values {
    map name | name in format.fields :: format.fields[name].default
  }

  datatype Decoded = Decoded(version: int, values: Values, notes: set<Note>) | Undecodable(code: Code)

  predicate AnyError(notes: set<Note>) {
    exists note :: note in notes && !note.UnknownField?
  }

  /** `document` is the parsed file, `None` when it does not exist. */
  ghost function Decode(format: Format, document: Option<Node>): Decoded
    requires document.Some? ==> document.value.Table?
  {
    match document
    case None => Decoded(EDITING_VERSION, Defaults(format), {})
    case Some(root) =>
      var version := VersionOf(root);
      if version.None? then Undecodable(ValidationError)
      else if version.value == DOCUMENT_VERSION then Strict(ParseV1(format, root), version.value, {})
      else if version.value != EDITING_VERSION then Undecodable(UnsupportedVersion)
      else
        var notes := Notes(format, Template(format), root, []);
        if AnyError(notes) then Undecodable(ValidationError)
        else Strict(ParseV1(format, Overlaid(format, Template(format), root, [])), version.value, notes)
  }

  function VersionOf(root: Node): Option<int> {
    match Get(root, VERSION)
    case Some(Scalar(Integer(version))) => Some(version)
    case _ => None
  }

  function Strict(parsed: Option<Values>, version: int, notes: set<Note>): Decoded {
    match parsed
    case None => Undecodable(ValidationError)
    case Some(values) => Decoded(version, values, notes)
  }

  // ---------------------------------------------------------------------------
  // Field by field

  predicate Known(format: Format, name: FieldName) {
    name in format.fields || name in format.optionals
  }

  /** The document has a value of the field's type. */
  predicate WellTyped(format: Format, name: FieldName, node: Node) {
    if name in format.fields then Typed(format.fields[name].default, node).Some? else IsNumber(node)
  }

  /** The document's own value if it has a well-typed one, else the default if any. */
  function EffectiveValue(format: Format, root: Node, name: FieldName): Option<Value> {
    var own := GetField(root, name);
    if own.Some? && WellTyped(format, name, own.value) then FieldValue(format, root, name)
    else if name in format.fields then Some(format.fields[name].default)
    else None
  }

  /** Every known table is a table, and every known field well typed. */
  ghost predicate WellTypedDocument(format: Format, root: Node) {
    && (forall table :: table in TableNames(format) && Get(root, table).Some? ==> Get(root, table).value.Table?)
    && (forall name: FieldName :: Known(format, name) && GetField(root, name).Some? ==>
         WellTyped(format, name, GetField(root, name).value))
  }

  ghost predicate AllAccepted(format: Format, root: Node) {
    forall name: FieldName :: Known(format, name) && EffectiveValue(format, root, name).Some? ==>
      Accepted(format, name, EffectiveValue(format, root, name).value)
  }

  function EffectiveValues(format: Format, root: Node): Values {
    map name | name in format.fields.Keys + format.optionals.Keys && EffectiveValue(format, root, name).Some?
      :: EffectiveValue(format, root, name).value
  }

  lemma TemplateParts(format: Format, table: Key, key: Key)
    requires WellFormed(format)
    ensures table != VERSION ==>
      Get(Template(format), table) == if table in TableNames(format) then Some(TemplateTable(format, table)) else None
    ensures Get(Template(format), VERSION) == Some(Scalar(Integer(DOCUMENT_VERSION)))
    ensures Get(TemplateTable(format, table), key)
         == if (table, key) in format.fields then Some(Scalar(format.fields[(table, key)].default)) else None
    ensures (table, key) in format.fields ==> table in TableNames(format)
    ensures VERSION !in TableNames(format)
  {
    if (table, key) in format.fields {
      assert (table, key).0 in TableNames(format) && (table, key).1 in KeysIn(format, table);
    }
    if key in KeysIn(format, table) {
      var name :| name in format.fields && name.0 == table && name.1 == key;
      assert name == (table, key);
    }
  }

  /** A known scalar is well typed exactly when the overlay takes it. */
  lemma TypedIsValid(format: Format, name: FieldName, node: Node)
    requires WellFormed(format) && Known(format, name)
    ensures name in format.fields ==>
      (WellTyped(format, name, node) <==> !InvalidTypeOf(Some(Scalar(format.fields[name].default)), node, false))
    ensures name in format.optionals ==> (WellTyped(format, name, node) <==> !InvalidTypeOf(None, node, true))
  {}

  /** The table of the overlay under a known table's name. */
  lemma OverlaidTable(format: Format, root: Node, table: Key)
    requires WellFormed(format) && root.Table? && table in TableNames(format)
    ensures Get(Overlaid(format, Template(format), root, []), table)
         == Some(if Get(root, table).Some? && Get(root, table).value.Table?
                 then Overlaid(format, TemplateTable(format, table), Get(root, table).value, [table])
                 else TemplateTable(format, table))
  {
    TemplateParts(format, table, table);
    var prefix: KeyPath := [];
    assert prefix + [table] == [table];
    assert Chosen(format, Template(format), root, [], table).Some?;
  }

  lemma OverlaidKey(format: Format, effective: Node, incoming: Node, prefix: KeyPath, key: Key)
    requires effective.Table? && incoming.Table?
    ensures Get(Overlaid(format, effective, incoming, prefix), key)
         == if key in effective.entries || key in incoming.entries then Chosen(format, effective, incoming, prefix, key)
            else None
  {}

  /** The field of the overlay: the incoming node if known and well typed, else the
      default's. */
  lemma OverlaidField(format: Format, root: Node, name: FieldName)
    requires WellFormed(format) && root.Table? && name.0 in TableNames(format)
    ensures GetField(Overlaid(format, Template(format), root, []), name)
         == if GetField(root, name).Some? && Known(format, name) && WellTyped(format, name, GetField(root, name).value)
            then GetField(root, name)
            else if name in format.fields then Some(Scalar(format.fields[name].default)) else None
  {
    hide Overlaid, TemplateTable, Template, WellTyped, InvalidTypeOf, KeysIn;
    var (table, key) := name;
    OverlaidTable(format, root, table);
    TemplateParts(format, table, key);
    if Get(root, table).Some? && Get(root, table).value.Table? {
      OverlaidKey(format, TemplateTable(format, table), Get(root, table).value, [table], key);
      if Known(format, name) && GetField(root, name).Some? {
        TypedIsValid(format, name, GetField(root, name).value);
      }
    }
  }

  /** The overlay's fields are the effective values. */
  lemma OverlaidValue(format: Format, root: Node, name: FieldName)
    requires WellFormed(format) && root.Table? && Known(format, name)
    ensures FieldValue(format, Overlaid(format, Template(format), root, []), name) == EffectiveValue(format, root, name)
  {
    hide Overlaid, Template, Normalized;
    KnownTable(format, name);
    OverlaidField(format, root, name);
    if name in format.fields {
      assert Typed(format.fields[name].default, Scalar(format.fields[name].default)) == Some(format.fields[name].default);
    }
  }

  lemma KnownTable(format: Format, name: FieldName)
    requires WellFormed(format) && Known(format, name)
    ensures name.0 in TableNames(format) && name.0 != VERSION
  {}

  lemma OverlaidIsKnown(format: Format, root: Node)
    requires WellFormed(format) && root.Table?
    ensures var overlaid := Overlaid(format, Template(format), root, []);
      && Get(overlaid, VERSION) == Some(Scalar(Integer(DOCUMENT_VERSION)))
      && OnlyKnown(format, overlaid) && AllTables(format, overlaid)
  {
    hide Overlaid, Template, EffectiveValue, FieldValue;
    var overlaid := Overlaid(format, Template(format), root, []);
    OverlaidKey(format, Template(format), root, [], VERSION);
    TemplateParts(format, VERSION, VERSION);
    forall key | Get(overlaid, key).Some? ensures key == VERSION || HasTable(format, key) {
      UnknownTableDropped(format, root, key);
    }
    forall name: FieldName | GetField(overlaid, name).Some? ensures name in format.fields || name in format.optionals {
      UnknownTableDropped(format, root, name.0);
      if name.0 in TableNames(format) {
        OverlaidField(format, root, name);
      }
    }
    forall name | name in format.fields ensures Get(overlaid, name.0).Some? && Get(overlaid, name.0).value.Table? {
      KnownTable(format, name);
      OverlaidTable(format, root, name.0);
    }
  }

  lemma UnknownTableDropped(format: Format, root: Node, key: Key)
    requires WellFormed(format) && root.Table?
    ensures Get(Overlaid(format, Template(format), root, []), key).Some? ==> key == VERSION || key in TableNames(format)
    ensures key in TableNames(format) <==> HasTable(format, key)
  {
    hide Overlaid;
    OverlaidKey(format, Template(format), root, [], key);
    TemplateParts(format, key, key);
  }

  /** `overlaid` has just the effective values in its fields. */
  ghost predicate HoldsEffective(format: Format, root: Node, overlaid: Node) {
    forall name: FieldName :: Known(format, name) ==>
      && FieldValue(format, overlaid, name) == EffectiveValue(format, root, name)
      && (name in format.fields ==> FieldValue(format, overlaid, name).Some?)
      && (GetField(overlaid, name).Some? <==> FieldValue(format, overlaid, name).Some?)
  }

  lemma SameValues(format: Format, root: Node, overlaid: Node)
    requires HoldsEffective(format, root, overlaid)
    ensures ValuesOf(format, overlaid) == EffectiveValues(format, root)
  {
    hide FieldValue, EffectiveValue, GetField;
    assert forall name: FieldName :: Known(format, name) ==>
      FieldValue(format, overlaid, name) == EffectiveValue(format, root, name);
  }

  lemma SameAcceptance(format: Format, root: Node, overlaid: Node)
    requires HoldsEffective(format, root, overlaid)
    ensures Complete(format, overlaid) <==> AllAccepted(format, root)
  {
    hide FieldValue, EffectiveValue, GetField, Accepted;
    if Complete(format, overlaid) {
      forall name: FieldName | Known(format, name) && EffectiveValue(format, root, name).Some?
        ensures Accepted(format, name, EffectiveValue(format, root, name).value)
      {
        assert FieldValue(format, overlaid, name) == EffectiveValue(format, root, name);
      }
    }
    if AllAccepted(format, root) {
      forall name: FieldName | Known(format, name) && FieldValue(format, overlaid, name).Some?
        ensures Accepted(format, name, FieldValue(format, overlaid, name).value)
      {
        assert FieldValue(format, overlaid, name) == EffectiveValue(format, root, name);
      }
    }
  }

  lemma OverlayHoldsEffective(format: Format, root: Node)
    requires WellFormed(format) && root.Table?
    ensures HoldsEffective(format, root, Overlaid(format, Template(format), root, []))
  {
    hide Overlaid, Template, FieldValue, EffectiveValue, GetField, Known, WellFormed;
    forall name: FieldName | Known(format, name)
      ensures var overlaid := Overlaid(format, Template(format), root, []);
        && FieldValue(format, overlaid, name) == EffectiveValue(format, root, name)
        && (name in format.fields ==> FieldValue(format, overlaid, name).Some?)
        && (GetField(overlaid, name).Some? <==> FieldValue(format, overlaid, name).Some?)
    {
      OverlaidValue(format, root, name);
      OverlaidHasValue(format, root, name);
    }
  }

  /** Parsing the overlay: valid exactly when every effective value is. */
  lemma ParsedOverlay(format: Format, root: Node)
    requires WellFormed(format) && root.Table?
    ensures ParseV1(format, Overlaid(format, Template(format), root, []))
         == if AllAccepted(format, root) then Some(EffectiveValues(format, root)) else None
  {
    hide Overlaid, Template, HoldsEffective, ValuesOf, EffectiveValues, Complete, AllAccepted, OnlyKnown, AllTables;
    var overlaid := Overlaid(format, Template(format), root, []);
    OverlaidIsKnown(format, root);
    OverlayHoldsEffective(format, root);
    SameValues(format, root, overlaid);
    SameAcceptance(format, root, overlaid);
  }

  lemma OverlaidHasValue(format: Format, root: Node, name: FieldName)
    requires WellFormed(format) && root.Table? && Known(format, name)
    ensures var overlaid := Overlaid(format, Template(format), root, []);
      && (GetField(overlaid, name).Some? <==> FieldValue(format, overlaid, name).Some?)
      && (name in format.fields ==> FieldValue(format, overlaid, name).Some?)
  {
    hide Overlaid, Template, Normalized;
    KnownTable(format, name);
    OverlaidField(format, root, name);
    if name in format.fields {
      assert Typed(format.fields[name].default, Scalar(format.fields[name].default)).Some?;
    }
  }

  // ---------------------------------------------------------------------------
  // Notes

  /** The notes about one key of a known table. */
  lemma KeyNotes(format: Format, table: Key, node: Node, key: Key)
    requires WellFormed(format) && table in TableNames(format) && node.Table? && key in node.entries
    ensures NotesAt(format, TemplateTable(format, table), node, [table], key)
         == if !Known(format, (table, key)) then {UnknownField([table] + [key])}
            else if WellTyped(format, (table, key), node.entries[key]) then {} else {InvalidType([table] + [key])}
  {
    hide TemplateTable, WellTyped, InvalidTypeOf, WellFormed, Overlaid;
    TemplateParts(format, table, key);
    if Known(format, (table, key)) {
      TypedIsValid(format, (table, key), node.entries[key]);
      OneKind(format, (table, key));
    }
  }

  lemma TableErrors(format: Format, table: Key, node: Node)
    requires WellFormed(format) && table in TableNames(format) && node.Table?
    ensures AnyError(Notes(format, TemplateTable(format, table), node, [table])) <==>
      exists key :: key in node.entries && Known(format, (table, key)) && !WellTyped(format, (table, key), node.entries[key])
    ensures forall note :: note in Notes(format, TemplateTable(format, table), node, [table]) && note.UnknownField? ==>
      exists key :: key in node.entries && !Known(format, (table, key))
  {
    hide TemplateTable, WellTyped, InvalidTypeOf, WellFormed, Overlaid, Known, NotesAt;
    var effective := TemplateTable(format, table);
    forall key | key in node.entries
      ensures NotesAt(format, effective, node, [table], key)
           == if !Known(format, (table, key)) then {UnknownField([table] + [key])}
              else if WellTyped(format, (table, key), node.entries[key]) then {} else {InvalidType([table] + [key])}
    {
      KeyNotes(format, table, node, key);
    }
    if key :| key in node.entries && Known(format, (table, key)) && !WellTyped(format, (table, key), node.entries[key]) {
      assert InvalidType([table] + [key]) in NotesAt(format, effective, node, [table], key);
      assert InvalidType([table] + [key]) in Notes(format, effective, node, [table]);
    }
  }

  lemma OneKind(format: Format, name: FieldName)
    requires WellFormed(format)
    ensures name in format.fields ==> name !in format.optionals
  {}

  /** The overlay reports an error exactly when the document is not well typed. */
  lemma DocumentErrors(format: Format, root: Node)
    requires WellFormed(format) && root.Table?
    ensures AnyError(Notes(format, Template(format), root, [])) <==> !WellTypedDocument(format, root)
    ensures OnlyKnown(format, root) ==>
      forall note :: note in Notes(format, Template(format), root, []) ==> !note.UnknownField?
  {
    hide NotesByTable, WellTypedDocument, Notes, OnlyKnown;
    NotesAreByTable(format, root);
    ErrorsOfTables(format, root);
    if OnlyKnown(format, root) {
      UnknownOfTables(format, root);
    }
  }

  /** What the notes of a document are, table by table. */
  ghost predicate NotesByTable(format: Format, root: Node)
    requires root.Table?
  {
    forall key :: key in root.entries ==>
      NotesAt(format, Template(format), root, [], key)
      == if key == VERSION then {} else if key !in TableNames(format) then {UnknownField([key])}
         else if root.entries[key].Table? then Notes(format, TemplateTable(format, key), root.entries[key], [key])
         else {InvalidTable([key])}
  }

  lemma NotesAreByTable(format: Format, root: Node)
    requires WellFormed(format) && root.Table?
    ensures NotesByTable(format, root)
  {
    hide TemplateTable, Template, WellTyped, InvalidTypeOf, Overlaid, Known;
    var prefix: KeyPath := [];
    forall key | key in root.entries
      ensures NotesAt(format, Template(format), root, [], key)
           == if key == VERSION then {} else if key !in TableNames(format) then {UnknownField([key])}
              else if root.entries[key].Table? then Notes(format, TemplateTable(format, key), root.entries[key], [key])
              else {InvalidTable([key])}
    {
      hide Notes;
      TemplateParts(format, key, key);
      assert prefix + [key] == [key];
    }
  }

  lemma ErrorsOfTables(format: Format, root: Node)
    requires WellFormed(format) && root.Table? && NotesByTable(format, root)
    ensures AnyError(Notes(format, Template(format), root, [])) <==> !WellTypedDocument(format, root)
  {
    hide TemplateTable, Template, WellTyped, Overlaid, NotesAt, WellFormed, TableNames;
    if AnyError(Notes(format, Template(format), root, [])) {
      var note :| note in Notes(format, Template(format), root, []) && !note.UnknownField?;
      var key :| key in root.entries && note in NotesAt(format, Template(format), root, [], key);
      if root.entries[key].Table? {
        TableErrors(format, key, root.entries[key]);
        var k :| k in root.entries[key].entries && Known(format, (key, k))
          && !WellTyped(format, (key, k), root.entries[key].entries[k]);
        assert GetField(root, (key, k)) == Some(root.entries[key].entries[k]);
      } else {
        assert Get(root, key) == Some(root.entries[key]);
      }
    }
    if !WellTypedDocument(format, root) {
      if table :| table in TableNames(format) && Get(root, table).Some? && !Get(root, table).value.Table? {
        VersionIsNoTable(format);
        assert InvalidTable([table]) in NotesAt(format, Template(format), root, [], table);
        assert InvalidTable([table]) in Notes(format, Template(format), root, []);
      } else {
        var name: FieldName :| Known(format, name) && GetField(root, name).Some?
          && !WellTyped(format, name, GetField(root, name).value);
        KnownTable(format, name);
        var node := Get(root, name.0).value;
        TableErrors(format, name.0, node);
        assert name.1 in node.entries && Known(format, (name.0, name.1));
        var note :| note in Notes(format, TemplateTable(format, name.0), node, [name.0]) && !note.UnknownField?;
        assert note in NotesAt(format, Template(format), root, [], name.0);
        assert note in Notes(format, Template(format), root, []);
      }
    }
  }

  lemma VersionIsNoTable(format: Format)
    requires WellFormed(format)
    ensures VERSION !in TableNames(format)
  {}

  lemma UnknownOfTables(format: Format, root: Node)
    requires WellFormed(format) && root.Table? && NotesByTable(format, root) && OnlyKnown(format, root)
    ensures forall note :: note in Notes(format, Template(format), root, []) ==> !note.UnknownField?
  {
    hide TemplateTable, Template, WellTyped, Overlaid, NotesAt, WellFormed;
    forall note | note in Notes(format, Template(format), root, []) ensures !note.UnknownField? {
      var key :| key in root.entries && note in NotesAt(format, Template(format), root, [], key);
      assert Get(root, key).Some?;
      assert key == VERSION || HasTable(format, key);
      if key in TableNames(format) && root.entries[key].Table? {
        TableErrors(format, key, root.entries[key]);
        forall k | k in root.entries[key].entries ensures Known(format, (key, k)) {
          assert GetField(root, (key, k)).Some?;
        }
      }
    }
  }

  // ---------------------------------------------------------------------------
  // Version 2, upgrade and removal

  /** A version 2 document decodes exactly when it is well typed and its effective
      values are accepted; it then stands for those, and only warns. */
  lemma Version2Meaning(format: Format, root: Node)
    requires WellFormed(format) && root.Table? && VersionOf(root) == Some(EDITING_VERSION)
    ensures var decoded := Decode(format, Some(root));
      && (decoded.Decoded? <==> WellTypedDocument(format, root) && AllAccepted(format, root))
      && (decoded.Decoded? ==>
           && decoded.values == EffectiveValues(format, root) && decoded.version == EDITING_VERSION
           && forall note :: note in decoded.notes ==> note.UnknownField?)
  {
    hide Overlaid, Template, Notes, WellTypedDocument, AllAccepted, EffectiveValues, ParseV1, VersionOf;
    DocumentErrors(format, root);
    ParsedOverlay(format, root);
  }

  /** The document with its version changed and nothing else. */
  function WithVersion(root: Node, version: int): Node
    requires root.Table?
  {
    Table(root.entries[VERSION := Scalar(Integer(version))])
  }

  /** Upgrading a valid version 1 document by changing only its version keeps the
      appearance, without any warning. */
  lemma UpgradeKeepsMeaning(format: Format, root: Node)
    requires WellFormed(format) && root.Table? && VersionOf(root) == Some(DOCUMENT_VERSION)
    requires Decode(format, Some(root)).Decoded?
    ensures Decode(format, Some(WithVersion(root, EDITING_VERSION)))
         == Decoded(EDITING_VERSION, Decode(format, Some(root)).values, {})
  {
    hide Overlaid, Template, Notes, Normalized, Typed;
    var upgraded := WithVersion(root, EDITING_VERSION);
    assert ParseV1(format, root).Some? && ParseV1(format, root).value == Decode(format, Some(root)).values;
    forall name: FieldName | Known(format, name)
      ensures GetField(upgraded, name) == GetField(root, name)
      ensures FieldValue(format, upgraded, name) == FieldValue(format, root, name)
    {
      KnownTable(format, name);
    }
    StrictIsEffective(format, root, upgraded);
    UpgradedIsKnown(format, root, upgraded);
    Version2Meaning(format, upgraded);
    DocumentErrors(format, upgraded);
    var notes := Decode(format, Some(upgraded)).notes;
    assert notes == {} by {
      forall note ensures note !in notes {}
    }
  }

  lemma UpgradedIsKnown(format: Format, root: Node, upgraded: Node)
    requires WellFormed(format) && root.Table? && OnlyKnown(format, root) && upgraded == WithVersion(root, EDITING_VERSION)
    ensures OnlyKnown(format, upgraded) && VersionOf(upgraded) == Some(EDITING_VERSION)
  {
    forall name: FieldName | GetField(upgraded, name).Some? ensures name in format.fields || name in format.optionals {
      assert name.0 != VERSION;
      assert GetField(upgraded, name) == GetField(root, name);
    }
    forall key | Get(upgraded, key).Some? ensures key == VERSION || HasTable(format, key) {
      assert key != VERSION ==> Get(root, key).Some?;
    }
  }

  ghost predicate SameFields(format: Format, root: Node, upgraded: Node) {
    forall name: FieldName :: Known(format, name) ==>
      GetField(upgraded, name) == GetField(root, name) && FieldValue(format, upgraded, name) == FieldValue(format, root, name)
  }

  lemma TablesKept(format: Format, root: Node)
    requires WellFormed(format) && root.Table? && AllTables(format, root)
    ensures var upgraded := WithVersion(root, EDITING_VERSION);
      forall table :: table in TableNames(format) && Get(upgraded, table).Some? ==> Get(upgraded, table).value.Table?
  {
    var upgraded := WithVersion(root, EDITING_VERSION);
    forall table | table in TableNames(format) && Get(upgraded, table).Some? ensures Get(upgraded, table).value.Table? {
      var name :| name in format.fields && name.0 == table;
      KnownTable(format, name);
      assert Get(upgraded, table) == Get(root, table);
    }
  }

  /** Of a document the strict parser takes, the parsed values are the effective ones. */
  lemma StrictIsEffective(format: Format, root: Node, upgraded: Node)
    requires WellFormed(format) && root.Table? && ParseV1(format, root).Some?
    requires SameFields(format, root, upgraded) && upgraded == WithVersion(root, EDITING_VERSION)
    ensures WellTypedDocument(format, upgraded) && AllAccepted(format, upgraded)
    ensures EffectiveValues(format, upgraded) == ParseV1(format, root).value
  {
    hide Normalized, WellFormed, EffectiveValue, FieldValue, WellTyped, GetField, WithVersion, Accepted, Known;
    assert ParseV1(format, root) == Some(ValuesOf(format, root)) && Complete(format, root) && AllTables(format, root);
    TablesKept(format, root);
    forall name: FieldName | Known(format, name)
      ensures GetField(upgraded, name).Some? ==> WellTyped(format, name, GetField(upgraded, name).value)
      ensures EffectiveValue(format, upgraded, name) == FieldValue(format, root, name)
      ensures FieldValue(format, root, name).Some? ==> Accepted(format, name, FieldValue(format, root, name).value)
    {
      StrictValue(format, root, upgraded, name);
      StrictAccepted(format, root, name);
    }
    KnownIsListed(format);
  }

  lemma KnownIsListed(format: Format)
    ensures forall name: FieldName :: Known(format, name) <==> name in format.fields.Keys + format.optionals.Keys
  {}

  lemma StrictAccepted(format: Format, root: Node, name: FieldName)
    requires Complete(format, root) && Known(format, name)
    ensures FieldValue(format, root, name).Some? ==> Accepted(format, name, FieldValue(format, root, name).value)
  {
    hide Normalized, Typed;
  }

  lemma StrictValue(format: Format, root: Node, upgraded: Node, name: FieldName)
    requires Complete(format, root) && Known(format, name)
    requires GetField(upgraded, name) == GetField(root, name) && FieldValue(format, upgraded, name) == FieldValue(format, root, name)
    ensures GetField(upgraded, name).Some? ==> WellTyped(format, name, GetField(upgraded, name).value)
    ensures EffectiveValue(format, upgraded, name) == FieldValue(format, root, name)
  {
    hide Normalized;
  }

  /** The document without one field. */
  function Without(root: Node, name: FieldName): Node
    requires GetField(root, name).Some?
  {
    Table(root.entries[name.0 := Table(root.entries[name.0].entries - {name.1})])
  }

  lemma WithoutFields(format: Format, root: Node, name: FieldName, other: FieldName)
    requires GetField(root, name).Some?
    ensures GetField(Without(root, name), other) == if other == name then None else GetField(root, other)
  {}

  /** Removing a field from a valid version 2 document keeps it valid and changes
      only that field, to its default. */
  lemma RemovalIsLocal(format: Format, root: Node, name: FieldName)
    requires WellFormed(format) && root.Table? && VersionOf(root) == Some(EDITING_VERSION)
    requires Decode(format, Some(root)).Decoded? && Known(format, name) && GetField(root, name).Some?
    ensures Without(root, name).Table?
    ensures var (before, after) := (Decode(format, Some(root)), Decode(format, Some(Without(root, name))));
      && after.Decoded? && after.version == EDITING_VERSION
      && (forall other: FieldName :: other != name ==>
           (other in after.values <==> other in before.values)
           && (other in after.values ==> after.values[other] == before.values[other]))
      && (name in format.fields ==> name in after.values && after.values[name] == format.fields[name].default)
      && (name in format.optionals ==> name !in after.values)
  {
    hide Decode, Notes, Overlaid, Template, Normalized, Accepted, WellTyped, GetField, Without, VersionOf;
    var less := Without(root, name);
    Version2Meaning(format, root);
    KnownTable(format, name);
    WithoutParts(format, root, name);
    forall other: FieldName ensures GetField(less, other) == if other == name then None else GetField(root, other) {
      WithoutFields(format, root, name, other);
    }
    forall other: FieldName | Known(format, other)
      ensures EffectiveValue(format, less, other)
           == if other == name then (if name in format.fields then Some(format.fields[name].default) else None)
              else EffectiveValue(format, root, other)
    {}
    assert AllAccepted(format, less) by {
      if name in format.fields {
        assert format.fields[name].accepts(format.fields[name].default);
        DefaultAccepted(format, name);
      }
    }
    Version2Meaning(format, less);
  }

  lemma DefaultAccepted(format: Format, name: FieldName)
    requires WellFormed(format) && name in format.fields
    ensures Accepted(format, name, format.fields[name].default)
  {}

  lemma WithoutParts(format: Format, root: Node, name: FieldName)
    requires GetField(root, name).Some? && name.0 != VERSION && WellTypedDocument(format, root)
    ensures var less := Without(root, name);
      && less.Table? && VersionOf(less) == VersionOf(root)
      && (forall table :: table in TableNames(format) && Get(less, table).Some? ==> Get(less, table).value.Table?)
  {
    hide WellTyped;
    var less := Without(root, name);
    assert Get(less, VERSION) == Get(root, VERSION);
    forall table | table in TableNames(format) && Get(less, table).Some? ensures Get(less, table).value.Table? {
      assert table != name.0 ==> Get(less, table) == Get(root, table);
    }
  }
}
